/**
 * The three TCP reads (crates/roc_http/src/lib.rs:267-314) over one buffered stream, and what any
 * sequence of them delivers.
 */
module TcpReads {
  import opened Numbers
  import opened Sequences
  import opened Wrappers
  import opened Words
  import opened Streams

  datatype TcpError = UnexpectedEof | Stream(error: IoError)

  /** `tcp_read_up_to`: whatever one fill of the buffer offers, at most `n` bytes of it. */
  method ReadUpTo(r: BufReader, n: nat) returns (result: Result<seq<byte>, TcpError>)
    requires r.Valid()
    modifies r
    ensures r.Valid()
    ensures CallStep(old(r.Remaining()), UpTo(n), result, r.Remaining())
    ensures old(r.buffer) != [] ==> result == Ok(old(r.buffer)[..Min(n, |old(r.buffer)|)])
    ensures old(r.buffer) == [] && n > 0 ==>
              match Delivered(old(r.script), r.capacity)
              case Ok(bytes) =>
                result == Ok(bytes[..Min(n, |bytes|)]) && r.buffer == bytes[Min(n, |bytes|)..]
              case Err(e) => result == Err(Stream(e))
    ensures result.Ok? ==> |result.value| == n || r.buffer == []
  {
    if n == 0 {
      // `Take::fill_buf` does not touch the stream once its limit is zero.
      return Ok([]);
    }
    var filled := r.FillBuf();
    match filled {
      case Err(e) =>
        result := Err(Stream(e));
      case Ok(available) =>
        var received := available[..Min(n, |available|)];
        r.Consume(|received|);
        assert AsItems([]) == [];
        result := Ok(received);
    }
  }

  /** What `tcp_read_exactly` does to the items; on an error the bytes before it are lost. */
  function Exactly(items: seq<Item>, n: nat): (o: (Result<seq<byte>, TcpError>, seq<Item>))
    decreases n
  {
    if n == 0 then (Ok([]), items)
    else if items == [] then (Err(UnexpectedEof), [])
    else
      match items[0]
      case End => (Err(UnexpectedEof), items[1..])
      case Failure(kind) => (Err(Stream(Failed(kind))), items[1..])
      case Byte(b) => Push([b], Exactly(items[1..], n - 1))
  }

  function Push(bytes: seq<byte>, o: (Result<seq<byte>, TcpError>, seq<Item>))
    : (Result<seq<byte>, TcpError>, seq<Item>)
  {
    if o.0.Ok? then (Ok(bytes + o.0.value), o.1) else o
  }

  lemma PushPush(a: seq<byte>, b: seq<byte>, o: (Result<seq<byte>, TcpError>, seq<Item>))
    ensures Push(a, Push(b, o)) == Push(a + b, o)
    ensures Push([], o) == o
  {
    if o.0.Ok? {
      assert a + (b + o.0.value) == a + b + o.0.value;
      assert [] + o.0.value == o.0.value;
    }
  }

  lemma {:induction false} ExactlySkips(bytes: seq<byte>, rest: seq<Item>, n: nat)
    requires |bytes| <= n
    ensures Exactly(AsItems(bytes) + rest, n) == Push(bytes, Exactly(rest, n - |bytes|))
  {
    var all := AsItems(bytes) + rest;
    if bytes == [] {
      assert all == rest;
      PushPush([], [], Exactly(rest, n));
    } else {
      ExactlySkips(bytes[1..], rest, n - 1);
      assert all[1..] == AsItems(bytes[1..]) + rest;
      PushPush([bytes[0]], bytes[1..], Exactly(rest, n - |bytes|));
      assert bytes == [bytes[0]] + bytes[1..];
    }
  }

  /** One read of `read_to_end` through the limit: bytes, the end, or a failure. */
  lemma ExactlyRound(items: seq<Item>, n: nat, fetched: Result<seq<byte>, IoError>, rest: seq<Item>)
    requires n > 0 && Fetched(items, fetched, rest) && (fetched.Ok? ==> |fetched.value| <= n)
    ensures match fetched
            case Ok(bytes) =>
              Exactly(items, n)
              == if bytes == [] then (Err(UnexpectedEof), rest) else Push(bytes, Exactly(rest, n - |bytes|))
            case Err(Interrupted) => Exactly(items, n) == Exactly(rest, n)
            case Err(Failed(kind)) => Exactly(items, n) == (Err(Stream(Failed(kind))), rest)
  {
    match fetched
    case Ok(bytes) =>
      if bytes != [] { ExactlySkips(bytes, rest, n); }
    case Err(Interrupted) =>
    case Err(Failed(kind)) =>
      assert items[1..] == rest;
  }

  /**
   * `tcp_read_exactly`: `read_to_end` on a stream limited to `n` bytes.  The sizes of its single
   * reads are the standard library's choice; the result is the unbuffered form's for all of them.
   */
  method ReadExactly(r: BufReader, n: nat) returns (result: Result<seq<byte>, TcpError>)
    requires r.Valid()
    modifies r
    ensures r.Valid()
    ensures CallStep(old(r.Remaining()), ExactlyBytes(n), result, r.Remaining())
  {
    hide Exactly, Push, Fetched, Flatten, BufReader.Remaining;
    var buffer: seq<byte> := [];
    PushPush([], [], Exactly(r.Remaining(), n));
    while |buffer| < n
      invariant r.Valid()
      invariant |buffer| <= n
      invariant Exactly(old(r.Remaining()), n) == Push(buffer, Exactly(r.Remaining(), n - |buffer|))
      decreases |r.Remaining()|, |r.script|
    {
      ghost var items := r.Remaining();
      var room: int := *;
      var limit := n - |buffer|;
      var fetched := r.Read(Min(if room <= 0 then 1 else room, limit));
      ExactlyRound(items, limit, fetched, r.Remaining());
      FetchedShrinks(items, fetched, r.Remaining());
      PushErr(buffer, r.Remaining());
      match fetched {
        case Err(Interrupted) =>
        case Err(Failed(kind)) =>
          return Err(Stream(Failed(kind)));
        case Ok(bytes) =>
          if bytes == [] {
            return Err(UnexpectedEof);
          }
          PushPush(buffer, bytes, Exactly(r.Remaining(), limit - |bytes|));
          buffer := buffer + bytes;
      }
    }
    ExactlyNone(buffer, r.Remaining());
    result := Ok(buffer);
  }

  lemma ExactlyNone(buffer: seq<byte>, items: seq<Item>)
    ensures Push(buffer, Exactly(items, 0)) == (Ok(buffer), items)
  {
    assert buffer + [] == buffer;
  }

  lemma PushErr(buffer: seq<byte>, rest: seq<Item>)
    ensures forall e: TcpError :: Push(buffer, (Err(e), rest)) == (Err(e), rest)
  {
  }

  lemma FetchedShrinks(items: seq<Item>, r: Result<seq<byte>, IoError>, rest: seq<Item>)
    requires Fetched(items, r, rest)
    ensures (r.Ok? && r.value != []) || (r.Err? && r.error != Interrupted) ==> |rest| < |items|
    ensures r == Err(Interrupted) ==> rest == items
  {
  }

  /** `tcp_read_until`: on an error the bytes before it are lost. */
  method ReadUntilByte(r: BufReader, delim: byte) returns (result: Result<seq<byte>, TcpError>)
    requires r.Valid()
    modifies r
    ensures r.Valid()
    ensures CallStep(old(r.Remaining()), UntilByte(delim), result, r.Remaining())
  {
    ghost var taken := Until(r.Remaining(), delim).bytes;
    var read, buffer := ReadUntil(r, delim, []);
    assert buffer == [] + taken == taken;
    if read.Err? {
      return Err(Stream(read.error));
    }
    result := Ok(buffer);
  }

  // ---------------------------------------------------------------------------------------------
  // Sessions
  // ---------------------------------------------------------------------------------------------

  datatype Call = UpTo(n: nat) | ExactlyBytes(n: nat) | UntilByte(delim: byte)

  /** One call's effect on the items; `UpTo` may return any non-empty prefix that fits. */
  ghost predicate CallStep(items: seq<Item>, call: Call, result: Result<seq<byte>, TcpError>, rest: seq<Item>) {
    match call
    case UpTo(n) =>
      if n == 0 then result == Ok([]) && rest == items
      else
        (match result
         case Ok(bytes) => |bytes| <= n && Fetched(items, Ok(bytes), rest)
         case Err(Stream(e)) => Fetched(items, Err(e), rest)
         case Err(UnexpectedEof) => false)
    case ExactlyBytes(n) => (result, rest) == Exactly(items, n)
    case UntilByte(delim) =>
      var o := Until(items, delim);
      rest == o.rest && result == if o.error.None? then Ok(o.bytes) else Err(Stream(o.error.value))
  }

  /** The bytes still to come, wherever the source reports an end or a failure. */
  function BytesOf(items: seq<Item>): seq<byte> {
    if items == [] then []
    else HeadBytes(items) + BytesOf(items[1..])
  }

  /** How many bytes come before the next end or failure. */
  function Leading(items: seq<Item>): (k: nat)
    ensures k <= |items|
    ensures forall i | 0 <= i < k :: items[i].Byte?
    ensures k < |items| ==> !items[k].Byte?
  {
    if items == [] || !items[0].Byte? then 0 else 1 + Leading(items[1..])
  }

  function HeadBytes(items: seq<Item>): seq<byte>
    requires items != []
  {
    if items[0].Byte? then [items[0].value] else []
  }

  lemma BytesOfStep(items: seq<Item>)
    requires items != []
    ensures BytesOf(items) == HeadBytes(items) + BytesOf(items[1..])
  {
  }

  lemma DropFirst(a: seq<Item>, b: seq<Item>)
    requires a != []
    ensures (a + b)[1..] == a[1..] + b && HeadBytes(a + b) == HeadBytes(a)
  {
  }

  lemma {:induction false} BytesOfConcat(a: seq<Item>, b: seq<Item>)
    ensures BytesOf(a + b) == BytesOf(a) + BytesOf(b)
  {
    if a == [] {
      assert a + b == b;
    } else {
      BytesOfConcat(a[1..], b);
      ConcatStep(a, b);
    }
  }

  lemma ConcatStep(a: seq<Item>, b: seq<Item>)
    requires a != [] && BytesOf(a[1..] + b) == BytesOf(a[1..]) + BytesOf(b)
    ensures BytesOf(a + b) == BytesOf(a) + BytesOf(b)
  {
    hide BytesOf;
    BytesOfStep(a);
    BytesOfStep(a + b);
    DropFirst(a, b);
    Regroup(HeadBytes(a), BytesOf(a[1..]), BytesOf(b));
  }

  lemma {:induction false} BytesOfItems(bytes: seq<byte>)
    ensures BytesOf(AsItems(bytes)) == bytes
  {
    if bytes == [] {
    } else {
      BytesOfItems(bytes[1..]);
      assert AsItems(bytes)[1..] == AsItems(bytes[1..]);
    }
  }

  /** Success needs `n` bytes at the front, and takes just those. */
  ghost predicate Exact(items: seq<Item>, n: nat, result: Result<seq<byte>, TcpError>, rest: seq<Item>) {
    && (result.Ok? <==> n <= Leading(items))
    && (result.Ok? ==> |result.value| == n && AsItems(result.value) == items[..n] && rest == items[n..])
  }

  /** `tcp_read_exactly` succeeds exactly when `n` bytes come before the next end or failure. */
  lemma {:induction false} ExactlySucceeds(items: seq<Item>, n: nat)
    ensures Exact(items, n, Exactly(items, n).0, Exactly(items, n).1)
  {
    if n == 0 || items == [] || !items[0].Byte? {
    } else {
      ExactlySucceeds(items[1..], n - 1);
      ExactlyMore(items, n);
    }
  }

  /** The step of the proof above. */
  lemma ExactlyMore(items: seq<Item>, n: nat)
    requires n > 0 && items != [] && items[0].Byte?
    requires Exact(items[1..], n - 1, Exactly(items[1..], n - 1).0, Exactly(items[1..], n - 1).1)
    ensures Exact(items, n, Exactly(items, n).0, Exactly(items, n).1)
  {
    var (r1, rest1) := Exactly(items[1..], n - 1);
    assert Exactly(items, n) == ((if r1.Ok? then Ok([items[0].value] + r1.value) else r1), rest1);
    assert Leading(items) == 1 + Leading(items[1..]);
    hide Exactly, Leading, AsItems;
    if r1.Ok? {
      ConsItems(items[0].value, r1.value);
      assert items[..n] == [items[0]] + items[1..][..n - 1];
      DropOne(items, n);
    }
  }

  /** `UnexpectedEof` means that fewer than `n` bytes come before the end; the end is used up. */
  lemma {:induction false} ExactlyFails(items: seq<Item>, n: nat)
    requires Leading(items) < n
    ensures var (result, rest) := Exactly(items, n); var k := Leading(items);
            if AtEnd(items[k..]) then result == Err(UnexpectedEof) && rest == PastEnd(items[k..])
            else items[k].Failure? && result == Err(Stream(Failed(items[k].kind))) && rest == items[k + 1..]
  {
    if items == [] || !items[0].Byte? {
    } else {
      ExactlyFails(items[1..], n - 1);
      var k := Leading(items);
      DropOne(items, k);
      if k < |items| { DropOne(items, k + 1); }
    }
  }

  /** Every successful call hands over the next bytes of the stream. */
  lemma CallDelivers(items: seq<Item>, call: Call, bytes: seq<byte>, rest: seq<Item>)
    requires CallStep(items, call, Ok(bytes), rest)
    ensures BytesOf(items) == bytes + BytesOf(rest)
  {
    hide Exactly, Until, AsItems;
    BytesOfItems(bytes);
    var k := |bytes|;
    match call {
      case UpTo(n) =>
        BytesOfConcat(AsItems(bytes), rest);
        if k == 0 { assert BytesOf(items) == BytesOf(rest); }
      case ExactlyBytes(n) =>
        ExactlySucceeds(items, n);
        SplitBytes(items, n);
      case UntilByte(d) =>
        UntilMeaning(items, d);
        SplitBytes(items, k);
    }
  }

  lemma SplitBytes(items: seq<Item>, k: nat)
    requires k <= |items|
    ensures BytesOf(items) == BytesOf(items[..k]) + BytesOf(items[k..])
    ensures AtEnd(items[k..]) ==> BytesOf(items[k..]) == BytesOf(PastEnd(items[k..]))
  {
    hide BytesOf;
    BytesOfConcat(items[..k], items[k..]);
    assert items == items[..k] + items[k..];
    if AtEnd(items[k..]) {
      EndHasNoBytes(items[k..]);
    }
  }

  lemma EndHasNoBytes(items: seq<Item>)
    requires AtEnd(items)
    ensures BytesOf(items) == BytesOf(PastEnd(items))
  {
    if items != [] {
      assert BytesOf(items) == [] + BytesOf(items[1..]);
    }
  }

  /**
   * Every successful call obeys its own bound: at most `n` bytes, and none only when none were
   * asked for or the stream is at an end; exactly `n`; or nothing beyond the first delimiter.
   */
  lemma CallBounds(items: seq<Item>, call: Call, bytes: seq<byte>, rest: seq<Item>)
    requires CallStep(items, call, Ok(bytes), rest)
    ensures match call
            case UpTo(n) => |bytes| <= n && (bytes == [] ==> n == 0 || AtEnd(items))
            case ExactlyBytes(n) => |bytes| == n
            case UntilByte(d) =>
              && d !in bytes[..if bytes == [] then 0 else |bytes| - 1]
              && (d !in bytes ==> |bytes| <= |items| && AtEnd(items[|bytes|..]))
  {
    hide Exactly, Until, AsItems;
    match call {
      case UpTo(n) =>
      case ExactlyBytes(n) => ExactlySucceeds(items, n);
      case UntilByte(d) =>
        UntilDelimiter(items, d);
        UntilMeaning(items, d);
    }
  }

  /** A session of successful calls, as the contracts of the three methods chain. */
  ghost predicate Session(states: seq<seq<Item>>, calls: seq<Call>, results: seq<seq<byte>>) {
    && |states| == |calls| + 1 && |results| == |calls|
    && forall i | 0 <= i < |calls| :: CallStep(states[i], calls[i], Ok(results[i]), states[i + 1])
  }

  /**
   * Conservation over any mixture of the three reads, up to the first error: what they returned,
   * followed by what is still buffered or unread, is the original stream.
   */
  lemma {:induction false} SessionConserves(states: seq<seq<Item>>, calls: seq<Call>, results: seq<seq<byte>>)
    requires Session(states, calls, results)
    ensures BytesOf(states[0]) == Concat(results) + BytesOf(states[|calls|])
  {
    if calls == [] {
    } else {
      CallDelivers(states[0], calls[0], results[0], states[1]);
      SessionConserves(states[1..], calls[1..], results[1..]);
      assert states[1..][|calls| - 1] == states[|calls|];
    }
  }

  // ---------------------------------------------------------------------------------------------
  // One stream, any list of calls
  // ---------------------------------------------------------------------------------------------

  /** What a failing call takes off the stream without handing it over, and no more. */
  ghost predicate Lost(call: Call, lost: seq<byte>) {
    match call
    case UpTo(_) => lost == []
    case ExactlyBytes(n) => |lost| < n
    case UntilByte(delim) => delim !in lost
  }

  lemma {:induction false} NoMoreBytesThanItems(items: seq<Item>)
    ensures |BytesOf(items)| <= |items|
  {
    if items == [] {
    } else {
      NoMoreBytesThanItems(items[1..]);
    }
  }

  lemma PastFailure(items: seq<Item>)
    requires items != [] && items[0].Failure?
    ensures BytesOf(items) == BytesOf(items[1..])
  {
    assert BytesOf(items) == [] + BytesOf(items[1..]);
  }

  /** A failing call loses only the bytes it had read for itself. */
  lemma CallLoses(items: seq<Item>, call: Call, error: TcpError, rest: seq<Item>) returns (lost: seq<byte>)
    requires CallStep(items, call, Err(error), rest)
    ensures Lost(call, lost) && BytesOf(items) == lost + BytesOf(rest)
  {
    hide Exactly, Until, AsItems, BytesOf;
    var k: nat;
    match call {
      case UpTo(n) =>
        k, lost := 0, [];
        if rest != items {
          assert items[1..] == rest;
          PastFailure(items);
        }
      case ExactlyBytes(n) =>
        ExactlySucceeds(items, n);
        ExactlyFails(items, n);
        k := Leading(items);
        lost := BytesOf(items[..k]);
        NoMoreBytesThanItems(items[..k]);
        SplitBytes(items, k);
        if !AtEnd(items[k..]) { PastFailure(items[k..]); }
      case UntilByte(d) =>
        UntilMeaning(items, d);
        UntilDelimiter(items, d);
        lost := Until(items, d).bytes;
        k := |lost|;
        BytesOfItems(lost);
        SplitBytes(items, k);
        PastFailure(items[k..]);
    }
  }

  lemma {:induction false} ConcatAppends(parts: seq<seq<byte>>, part: seq<byte>)
    ensures Concat(parts + [part]) == Concat(parts) + part
  {
    if parts == [] {
      assert Concat([part]) == part + Concat([part][1..]);
    } else {
      ConcatAppends(parts[1..], part);
      assert (parts + [part])[1..] == parts[1..] + [part];
      Regroup(parts[0], Concat(parts[1..]), part);
    }
  }

  /** One call on a stream. */
  method Perform(r: BufReader, call: Call) returns (result: Result<seq<byte>, TcpError>)
    requires r.Valid()
    modifies r
    ensures r.Valid() && CallStep(old(r.Remaining()), call, result, r.Remaining())
  {
    match call {
      case UpTo(n) => result := ReadUpTo(r, n);
      case ExactlyBytes(n) => result := ReadExactly(r, n);
      case UntilByte(delim) => result := ReadUntilByte(r, delim);
    }
  }

  /**
   * Conservation, end to end: any list of calls on one stream, up to the first error.  What they
   * returned, then what the failing call had read for itself, then what is still buffered or unread,
   * is the original stream, for every capacity, chunking and interruption.
   */
  method RunSession(r: BufReader, calls: seq<Call>)
    returns (results: seq<seq<byte>>, error: Option<TcpError>, ghost lost: seq<byte>)
    requires r.Valid()
    modifies r
    ensures r.Valid()
    ensures BytesOf(old(r.Remaining())) == Concat(results) + (lost + BytesOf(r.Remaining()))
    ensures error.None? ==> |results| == |calls| && lost == []
    ensures error.Some? ==> |results| < |calls| && Lost(calls[|results|], lost)
    ensures forall i | 0 <= i < |results| :: Bounded(calls[i], results[i])
  {
    hide BytesOf, Concat, CallStep, Bounded, Lost, BufReader.Remaining;
    results, error, lost := [], None, [];
    NothingRead(r.Remaining());
    while |results| < |calls|
      invariant r.Valid() && |results| <= |calls|
      invariant BytesOf(old(r.Remaining())) == Concat(results) + BytesOf(r.Remaining())
      invariant forall i | 0 <= i < |results| :: Bounded(calls[i], results[i])
      decreases |calls| - |results|
    {
      var call := calls[|results|];
      ghost var items := r.Remaining();
      var result := Perform(r, call);
      if result.Err? {
        lost := CallLoses(items, call, result.error, r.Remaining());
        return results, Some(result.error), lost;
      }
      CallDelivers(items, call, result.value, r.Remaining());
      CallBounded(items, call, result.value, r.Remaining());
      ConcatAppends(results, result.value);
      Regroup(Concat(results), result.value, BytesOf(r.Remaining()));
      results := results + [result.value];
    }
    assert [] + BytesOf(r.Remaining()) == BytesOf(r.Remaining());
  }

  lemma NothingRead(items: seq<Item>)
    ensures BytesOf(items) == Concat([]) + BytesOf(items)
  {
  }

  /** What a successful call may return. */
  ghost predicate Bounded(call: Call, bytes: seq<byte>) {
    match call
    case UpTo(n) => |bytes| <= n
    case ExactlyBytes(n) => |bytes| == n
    case UntilByte(delim) => delim !in bytes[..if bytes == [] then 0 else |bytes| - 1]
  }

  lemma CallBounded(items: seq<Item>, call: Call, bytes: seq<byte>, rest: seq<Item>)
    requires CallStep(items, call, Ok(bytes), rest)
    ensures Bounded(call, bytes)
  {
    hide CallStep;
    CallBounds(items, call, bytes, rest);
  }
}
