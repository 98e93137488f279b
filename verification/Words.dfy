/** Machine words as they lie in memory: eight little-endian bytes. */
module Words {

  type byte = n: int | 0 <= n < 256

  const WORD_LIMIT: nat := 0x1_0000_0000_0000_0000

  /** The low `k` bytes of `w`, least significant first. */
  function Encode(w: nat, k: nat): (s: seq<byte>)
    ensures |s| == k
  {
    if k == 0 then [] else [w % 256] + Encode(w / 256, k - 1)
  }

  function Decode(s: seq<byte>): nat {
    if s == [] then 0 else s[0] + 256 * Decode(s[1..])
  }

  function Power256(k: nat): nat {
    if k == 0 then 1 else 256 * Power256(k - 1)
  }

  lemma {:induction false} RoundTrip(w: nat, k: nat)
    requires w < Power256(k)
    ensures Decode(Encode(w, k)) == w
  {
    if k == 0 {
    } else {
      RoundTrip(w / 256, k - 1);
      assert Encode(w, k)[1..] == Encode(w / 256, k - 1);
    }
  }

  lemma WordRoundTrip(w: nat)
    requires w < WORD_LIMIT
    ensures Decode(Encode(w, 8)) == w
  {
    assert Power256(4) == 0x1_0000_0000;
    assert Power256(8) == 256 * (256 * (256 * (256 * Power256(4))));
    RoundTrip(w, 8);
  }
}
