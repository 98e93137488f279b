/**
 * Buffered readers over a scripted source, and `read_until` (crates/roc_file/src/lib.rs:133-163).
 *
 * The operating system is a finite script: what each successive `read` has to deliver.  Once the
 * script is used up, every further read reports the end.  What a reader still has to give is a
 * list of items that knows nothing of chunks, capacities or interruptions, and `read_until` is
 * specified on those items alone.
 */
module Streams {
  import opened Numbers
  import opened Sequences
  import opened Wrappers
  import opened Words

  datatype IoError = Interrupted | Failed(kind: nat)

  /** One scripted answer of the source; an empty chunk is how `read` reports the end. */
  datatype Event = Chunk(bytes: seq<byte>) | Fault(error: IoError)

  datatype Item = Byte(value: byte) | End | Failure(kind: nat)

  function AsItems(bytes: seq<byte>): (items: seq<Item>)
    ensures |items| == |bytes|
  {
    seq(|bytes|, i requires 0 <= i < |bytes| => Byte(bytes[i]))
  }

  /** What one event contributes: an interruption is retried by the readers and leaves no trace. */
  function EventItems(e: Event): seq<Item> {
    match e
    case Chunk(bytes) => if bytes == [] then [End] else AsItems(bytes)
    case Fault(Interrupted) => []
    case Fault(Failed(kind)) => [Failure(kind)]
  }

  function Flatten(script: seq<Event>): seq<Item> {
    if script == [] then [] else EventItems(script[0]) + Flatten(script[1..])
  }

  predicate AtEnd(items: seq<Item>) {
    items == [] || items[0] == End
  }

  /** Removes the end marker that a read at the end has used up. */
  function PastEnd(items: seq<Item>): seq<Item>
    requires AtEnd(items)
  {
    if items == [] then [] else items[1..]
  }

  // ---------------------------------------------------------------------------------------------
  // Chunking does not show
  // ---------------------------------------------------------------------------------------------

  lemma AsItemsConcat(a: seq<byte>, b: seq<byte>)
    ensures AsItems(a + b) == AsItems(a) + AsItems(b)
  {
  }

  lemma FlattenStep(script: seq<Event>)
    ensures Flatten(script) == if script == [] then [] else EventItems(script[0]) + Flatten(script[1..])
  {
  }

  lemma {:induction false} FlattenConcat(a: seq<Event>, b: seq<Event>)
    ensures Flatten(a + b) == Flatten(a) + Flatten(b)
  {
    hide EventItems, Flatten;
    FlattenStep(a);
    FlattenStep(a + b);
    if a == [] {
      assert a + b == b;
    } else {
      FlattenConcat(a[1..], b);
      assert (a + b)[1..] == a[1..] + b;
      Regroup(EventItems(a[0]), Flatten(a[1..]), Flatten(b));
    }
  }

  /**
   * Splitting a chunk anywhere and interrupting the source anywhere leave the items unchanged, so
   * whatever is specified on the items cannot depend on either.
   */
  lemma ChunkingInvisible(before: seq<Event>, x: seq<byte>, y: seq<byte>, after: seq<Event>)
    requires x != [] && y != []
    ensures Flatten(before + [Chunk(x + y)] + after)
         == Flatten(before + [Chunk(x), Fault(Interrupted), Chunk(y)] + after)
  {
    var whole, split := [Chunk(x + y)], [Chunk(x), Fault(Interrupted), Chunk(y)];
    FlattenConcat(before + whole, after);
    FlattenConcat(before, whole);
    FlattenConcat(before + split, after);
    FlattenConcat(before, split);
    AsItemsConcat(x, y);
    assert split[1..] == [Fault(Interrupted), Chunk(y)] && split[1..][1..] == [Chunk(y)];
    assert Flatten([Chunk(y)]) == AsItems(y);
    assert Flatten(split[1..]) == AsItems(y);
    assert Flatten(split) == AsItems(x) + AsItems(y);
    assert Flatten(whole) == AsItems(x + y);
  }

  // ---------------------------------------------------------------------------------------------
  // The buffered reader
  // ---------------------------------------------------------------------------------------------

  function Concat(parts: seq<seq<byte>>): seq<byte> {
    if parts == [] then [] else parts[0] + Concat(parts[1..])
  }

  /** What one `read` of the source into room for `max` bytes answers. */
  function Delivered(script: seq<Event>, max: nat): Result<seq<byte>, IoError> {
    if script == [] then Ok([])
    else
      match script[0]
      case Fault(e) => Err(e)
      case Chunk(bytes) => Ok(bytes[..Min(max, |bytes|)])
  }

  const DEFAULT_CAPACITY: nat := 8 * 1024

  /** `std::io::BufReader`: the bytes read ahead, and the source behind them. */
  class BufReader {
    const capacity: nat
    var buffer: seq<byte>
    var script: seq<Event>

    predicate Valid()
      reads this
    {
      capacity > 0
    }

    /** Everything this reader has still to give. */
    function Remaining(): seq<Item>
      reads this
    {
      AsItems(buffer) + Flatten(script)
    }

    /** `file_reader`: a size of zero asks for the default capacity. */
    constructor (size: nat, events: seq<Event>)
      ensures Valid() && capacity == (if size > 0 then size else 8192)
      ensures buffer == [] && script == events && Remaining() == Flatten(events)
    {
      capacity := if size > 0 then size else DEFAULT_CAPACITY;
      buffer := [];
      script := events;
    }

    /** One `read` of the source into room for `max` bytes. */
    method ReadSource(max: nat) returns (r: Result<seq<byte>, IoError>)
      requires max > 0
      modifies this`script
      ensures Fetched(Flatten(old(script)), r, Flatten(script)) && (r.Ok? ==> |r.value| <= max)
      ensures r == Err(Interrupted) ==> |script| < |old(script)|
      ensures r == Delivered(old(script), max)
    {
      if script == [] {
        return Ok([]);
      }
      match script[0] {
        case Fault(e) =>
          script := script[1..];
          r := Err(e);
        case Chunk(bytes) =>
          var n := Min(max, |bytes|);
          SplitChunk(script, n);
          script := (if n < |bytes| then [Chunk(bytes[n..])] else []) + script[1..];
          r := Ok(bytes[..n]);
      }
    }

    /** `fill_buf`: reads the source only when nothing is buffered. */
    method FillBuf() returns (r: Result<seq<byte>, IoError>)
      requires Valid()
      modifies this`buffer, this`script
      ensures Valid()
      ensures r.Ok? ==> r.value == buffer
      ensures old(buffer) != [] ==> r == Ok(old(buffer)) && script == old(script)
      ensures old(buffer) == [] ==> r == Delivered(old(script), capacity)
      ensures r.Ok? && r.value != [] ==> Remaining() == old(Remaining())
      ensures r == Ok([]) ==> AtEnd(old(Remaining())) && Remaining() == PastEnd(old(Remaining()))
      ensures r.Err? ==> buffer == [] && Fetched(old(Remaining()), r, Remaining())
      ensures r == Err(Interrupted) ==> |script| < |old(script)|
    {
      assert buffer == [] ==> Remaining() == Flatten(script);
      if buffer == [] {
        r := ReadSource(capacity);
        if r.Ok? {
          buffer := r.value;
        }
        assert buffer == [] ==> Remaining() == Flatten(script);
      } else {
        r := Ok(buffer);
      }
    }

    /** `consume`: drops `n` of the buffered bytes. */
    method Consume(n: nat)
      requires Valid() && n <= |buffer|
      modifies this`buffer
      ensures Valid() && buffer == old(buffer)[n..]
      ensures old(Remaining()) == AsItems(old(buffer)[..n]) + Remaining()
    {
      assert buffer == buffer[..n] + buffer[n..];
      AsItemsConcat(buffer[..n], buffer[n..]);
      buffer := buffer[n..];
    }

    /** `BufReader::read`: a large enough request bypasses an empty buffer. */
    method Read(max: nat) returns (r: Result<seq<byte>, IoError>)
      requires Valid() && max > 0
      modifies this`buffer, this`script
      ensures Valid()
      ensures Fetched(old(Remaining()), r, Remaining()) && (r.Ok? ==> |r.value| <= max)
      ensures r == Err(Interrupted) ==> |script| < |old(script)|
      ensures old(buffer) != [] ==> r == Ok(old(buffer)[..Min(max, |old(buffer)|)]) && script == old(script)
      ensures old(buffer) == [] && max >= capacity ==> r == Delivered(old(script), max) && buffer == []
      ensures old(buffer) == [] && max < capacity ==>
                match Delivered(old(script), capacity)
                case Ok(bytes) =>
                  r == Ok(bytes[..Min(max, |bytes|)]) && buffer == bytes[Min(max, |bytes|)..]
                case Err(e) => r == Err(e) && buffer == []
    {
      if buffer == [] && max >= capacity {
        assert Remaining() == Flatten(script);
        r := ReadSource(max);
        assert Remaining() == Flatten(script);
        return;
      }
      r := FillBuf();
      if r.Ok? {
        var n := Min(|r.value|, max);
        r := Ok(r.value[..n]);
        Consume(n);
        assert AsItems([]) == [];
      }
    }
  }

  /**
   * What a single read does to the items: bytes come off the front, an empty result uses up one
   * end marker, a failure is reported once, an interruption changes nothing.
   */
  ghost predicate Fetched(items: seq<Item>, r: Result<seq<byte>, IoError>, rest: seq<Item>) {
    match r
    case Ok(bytes) =>
      if bytes != [] then items == AsItems(bytes) + rest else AtEnd(items) && rest == PastEnd(items)
    case Err(Interrupted) => rest == items
    case Err(Failed(kind)) => items == [Failure(kind)] + rest
  }

  lemma SplitChunk(script: seq<Event>, n: nat)
    requires script != [] && script[0].Chunk? && n <= |script[0].bytes| && (n == 0 ==> script[0].bytes == [])
    ensures var bytes := script[0].bytes;
            var rest := (if n < |bytes| then [Chunk(bytes[n..])] else []) + script[1..];
            Fetched(Flatten(script), Ok(bytes[..n]), Flatten(rest))
  {
    hide Flatten, AsItems;
    FlattenStep(script);
    var bytes := script[0].bytes;
    if n < |bytes| {
      var rest := [Chunk(bytes[n..])] + script[1..];
      FlattenStep(rest);
      assert rest[1..] == script[1..];
      assert bytes == bytes[..n] + bytes[n..];
      AsItemsConcat(bytes[..n], bytes[n..]);
      Regroup(AsItems(bytes[..n]), AsItems(bytes[n..]), Flatten(script[1..]));
    } else {
      assert bytes[..n] == bytes;
      assert [] + script[1..] == script[1..];
    }
  }

  // ---------------------------------------------------------------------------------------------
  // read_until
  // ---------------------------------------------------------------------------------------------

  /** The bytes appended, the error if there was one, and the items left over. */
  datatype Outcome = Outcome(bytes: seq<byte>, error: Option<IoError>, rest: seq<Item>)

  function Prepend(b: seq<byte>, o: Outcome): Outcome {
    o.(bytes := b + o.bytes)
  }

  /** `read_until` without a buffer: byte by byte through the delimiter, the end, or a failure. */
  function Until(items: seq<Item>, delim: byte): (o: Outcome)
    ensures |o.rest| <= |items| && (o.error == None && o.bytes != [] ==> |o.rest| < |items|)
  {
    if items == [] then Outcome([], None, [])
    else
      match items[0]
      case End => Outcome([], None, items[1..])
      case Failure(kind) => Outcome([], Some(Failed(kind)), items[1..])
      case Byte(b) =>
        if b == delim then Outcome([b], None, items[1..]) else Prepend([b], Until(items[1..], delim))
  }

  /** `memchr`: the first occurrence of `delim`. */
  function Memchr(delim: byte, bytes: seq<byte>): (r: Option<nat>)
    ensures r.None? ==> delim !in bytes
    ensures r.Some? ==> r.value < |bytes| && bytes[r.value] == delim && delim !in bytes[..r.value]
  {
    if bytes == [] then None
    else if bytes[0] == delim then Some(0)
    else
      var r := Memchr(delim, bytes[1..]);
      if r.None? then None
      else
        assert bytes[..r.value + 1] == [bytes[0]] + bytes[1..][..r.value];
        Some(r.value + 1)
  }

  lemma UntilByteSkips(b: byte, items: seq<Item>, delim: byte)
    requires b != delim
    ensures Until([Byte(b)] + items, delim) == Prepend([b], Until(items, delim))
  {
    assert ([Byte(b)] + items)[1..] == items;
  }

  /** Bytes without the delimiter pass straight through. */
  lemma {:induction false} UntilSkips(bytes: seq<byte>, items: seq<Item>, delim: byte)
    requires delim !in bytes
    ensures Until(AsItems(bytes) + items, delim) == Prepend(bytes, Until(items, delim))
  {
    hide Until, Prepend;
    if bytes == [] {
      assert AsItems(bytes) + items == items;
      PrependPrepend([], [], Until(items, delim));
    } else {
      var rest := bytes[1..];
      UntilSkips(rest, items, delim);
      UntilByteSkips(bytes[0], AsItems(rest) + items, delim);
      PrependPrepend([bytes[0]], rest, Until(items, delim));
      assert bytes == [bytes[0]] + rest;
      ConsItems(bytes[0], rest);
      assert AsItems(bytes) + items == [Byte(bytes[0])] + (AsItems(rest) + items);
    }
  }

  /** The delimiter itself is the last byte taken. */
  lemma UntilStops(bytes: seq<byte>, items: seq<Item>, delim: byte)
    requires bytes != [] && bytes[|bytes| - 1] == delim && delim !in bytes[..|bytes| - 1]
    ensures Until(AsItems(bytes) + items, delim) == Outcome(bytes, None, items)
  {
    var n := |bytes| - 1;
    assert AsItems(bytes) + items == AsItems(bytes[..n]) + ([Byte(delim)] + items);
    UntilSkips(bytes[..n], [Byte(delim)] + items, delim);
    assert ([Byte(delim)] + items)[1..] == items;
    assert bytes == bytes[..n] + [delim];
  }

  lemma ConsItems(b: byte, bytes: seq<byte>)
    ensures AsItems([b] + bytes) == [Byte(b)] + AsItems(bytes)
  {
  }

  lemma DropOne(items: seq<Item>, k: nat)
    requires 0 < k <= |items|
    ensures items[1..][k - 1..] == items[k..]
  {
  }

  /** The delimiter can only be the last byte taken, and a failure comes without a delimiter. */
  lemma {:induction false} UntilDelimiter(items: seq<Item>, delim: byte)
    ensures var o := Until(items, delim);
            && delim !in o.bytes[..if o.bytes == [] then 0 else |o.bytes| - 1]
            && (o.error.Some? ==> o.error.value != Interrupted && delim !in o.bytes)
  {
    if items == [] || !items[0].Byte? || items[0].value == delim {
    } else {
      UntilDelimiter(items[1..], delim);
      var o, o1 := Until(items, delim), Until(items[1..], delim);
      assert o.bytes == [items[0].value] + o1.bytes;
      assert o1.bytes != [] ==> o.bytes[..|o.bytes| - 1] == [items[0].value] + o1.bytes[..|o1.bytes| - 1];
    }
  }

  /** A front part of the items that stops behind a delimiter, or at a failure or end and uses it up. */
  ghost predicate Taken(items: seq<Item>, delim: byte, o: Outcome) {
    var k := |o.bytes|;
    && k <= |items| && AsItems(o.bytes) == items[..k]
    && match o.error
       case Some(e) => k < |items| && e.Failed? && items[k] == Failure(e.kind) && o.rest == items[k + 1..]
       case None =>
         if delim in o.bytes then o.rest == items[k..]
         else AtEnd(items[k..]) && o.rest == PastEnd(items[k..])
  }

  /** What the unbuffered form takes, said without recursion. */
  lemma {:induction false} UntilMeaning(items: seq<Item>, delim: byte)
    ensures Taken(items, delim, Until(items, delim))
  {
    if items != [] && items[0].Byte? && items[0].value != delim {
      UntilMeaning(items[1..], delim);
      UntilMore(items, delim);
    } else if items != [] && items[0].Byte? {
      ConsItems(items[0].value, []);
    }
  }

  /** The step of the proof above, for an item that is taken and passed. */
  lemma UntilMore(items: seq<Item>, delim: byte)
    requires items != [] && items[0].Byte? && items[0].value != delim
    requires Taken(items[1..], delim, Until(items[1..], delim))
    ensures Taken(items, delim, Until(items, delim))
  {
    var b, o1 := items[0].value, Until(items[1..], delim);
    assert Until(items, delim) == Prepend([b], o1);
    hide Until, AsItems;
    ConsItems(b, o1.bytes);
    assert items[..|o1.bytes| + 1] == [items[0]] + items[1..][..|o1.bytes|];
    DropOne(items, |o1.bytes| + 1);
    if |o1.bytes| + 1 < |items| { DropOne(items, |o1.bytes| + 2); }
  }

  lemma PrependPrepend(a: seq<byte>, b: seq<byte>, o: Outcome)
    ensures Prepend(a, Prepend(b, o)) == Prepend(a + b, o)
    ensures Prepend([], o) == o
  {
    assert a + (b + o.bytes) == a + b + o.bytes;
    assert [] + o.bytes == o.bytes;
  }

  lemma PrependOutcome(a: seq<byte>, b: seq<byte>, e: Option<IoError>, rest: seq<Item>)
    ensures Prepend(a, Outcome(b, e, rest)) == Outcome(a + b, e, rest)
    ensures b == [] ==> Prepend(a, Outcome(b, e, rest)) == Outcome(a, e, rest)
  {
    assert a + [] == a;
  }

  /** One round of the loop: `taken` came off `items`, through the first delimiter if there is one. */
  lemma UntilRound(items: seq<Item>, available: seq<byte>, taken: seq<byte>, rest: seq<Item>, delim: byte)
    requires taken == match Memchr(delim, available) case Some(i) => available[..i + 1] case None => available
    requires Fetched(items, Ok(taken), rest)
    ensures if Memchr(delim, available).Some? || taken == []
            then Until(items, delim) == Outcome(taken, None, rest)
            else Until(items, delim) == Prepend(taken, Until(rest, delim))
  {
    match Memchr(delim, available)
    case Some(i) =>
      assert taken[..|taken| - 1] == available[..i];
      UntilStops(taken, rest, delim);
    case None =>
      if taken != [] {
        UntilSkips(taken, rest, delim);
      }
  }

  lemma UntilFails(items: seq<Item>, error: IoError, rest: seq<Item>, delim: byte)
    requires error != Interrupted && Fetched(items, Err(error), rest)
    ensures Until(items, delim) == Outcome([], Some(error), rest)
  {
    assert items[1..] == rest;
  }

  /**
   * `read_until`: whatever the capacity, the chunks and the interruptions, it appends exactly what
   * the unbuffered form takes, returns that count, and leaves exactly the unbuffered form's rest.
   */
  method ReadUntil(r: BufReader, delim: byte, buf: seq<byte>) returns (result: Result<nat, IoError>, buf': seq<byte>)
    requires r.Valid()
    modifies r
    ensures r.Valid()
    ensures var o := Until(old(r.Remaining()), delim);
            && buf' == buf + o.bytes
            && r.Remaining() == o.rest
            && result == if o.error.None? then Ok(|o.bytes|) else Err(o.error.value)
  {
    hide Until, Flatten, AsItems, Memchr, BufReader.Remaining, PastEnd, AtEnd, Prepend, Fetched, Delivered;
    var read := 0;
    buf' := buf;
    ghost var got: seq<byte> := [];
    PrependPrepend([], [], Until(r.Remaining(), delim));
    while true
      invariant r.Valid()
      invariant buf' == buf + got && read == |got|
      invariant Until(old(r.Remaining()), delim) == Prepend(got, Until(r.Remaining(), delim))
      decreases |r.Remaining()|, |r.script|
    {
      ghost var items := r.Remaining();
      var filled := r.FillBuf();
      if filled.Err? {
        if filled.error == Interrupted {
          continue;
        }
        UntilFails(items, filled.error, r.Remaining(), delim);
        PrependOutcome(got, [], Some(filled.error), r.Remaining());
        return Err(filled.error), buf';
      }
      var available := filled.value;
      var done, used;
      match Memchr(delim, available) {
        case Some(i) =>
          buf' := buf' + available[..i + 1];
          done, used := true, i + 1;
        case None =>
          buf' := buf' + available;
          done, used := false, |available|;
      }
      r.Consume(used);
      read := read + used;
      ghost var taken := available[..used];
      UntilRound(items, available, taken, r.Remaining(), delim);
      PrependPrepend(got, taken, Until(r.Remaining(), delim));
      PrependOutcome(got, taken, None, r.Remaining());
      assert buf + got + taken == buf + (got + taken);
      got := got + taken;
      if done || used == 0 {
        return Ok(read), buf';
      }
    }
  }
}
