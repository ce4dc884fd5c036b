/** The market-data stream over a connection: messages are put together again from however the bytes arrive. */
module Stream {

  type byte = x: int | 0 <= x < 256

  /** A header is 16 bytes long; its length field leaves the header out. */
  const HEADER_SIZE: nat := 16

  datatype Parsed = Parsed(messages: seq<seq<byte>>, rest: seq<byte>, corrupt: bool)

  /** The length of the message that starts here: the 16 bits at offset 12, low byte first, and the header. */
  function MessageLength(s: seq<byte>): (n: nat)
    requires |s| >= HEADER_SIZE
  {
    HEADER_SIZE + s[12] + 256 * (s[13] as int)
  }

  ghost predicate WellFormed(m: seq<byte>, size: nat) {
    HEADER_SIZE <= |m| <= size && MessageLength(m) == |m|
  }

  /** A message whose header names the length of its body, in 16 bits, the low byte at offset 12, is well-formed. */
  lemma {:induction false} Framed(m: seq<byte>, body: nat, size: nat)
    requires |m| == HEADER_SIZE + body <= size && body < 0x1_0000
    ensures WellFormed(m, size) <==> m[12] == body % 0x100 && m[13] == body / 0x100
  {
  }

  function Flatten(messages: seq<seq<byte>>): seq<byte> {
    if messages == [] then [] else messages[0] + Flatten(messages[1..])
  }

  /** The complete messages at the start of `s`, up to one that could not fit a buffer of this size. */
  function Parse(s: seq<byte>, size: nat): Parsed
    decreases |s|
  {
    if |s| < HEADER_SIZE then Parsed([], s, false)
    else if MessageLength(s) > size then Parsed([], s, true)
    else if |s| < MessageLength(s) then Parsed([], s, false)
    else
      var p := Parse(s[MessageLength(s)..], size);
      p.(messages := [s[..MessageLength(s)]] + p.messages)
  }

  lemma {:induction false} ParseWhole(s: seq<byte>, size: nat)
    requires |s| >= HEADER_SIZE && MessageLength(s) <= size && MessageLength(s) <= |s|
    ensures var n, q := MessageLength(s), Parse(s[MessageLength(s)..], size);
      Parse(s, size) == Parsed([s[..n]] + q.messages, q.rest, q.corrupt)
  {
  }

  lemma {:induction false} ParsePart(s: seq<byte>, size: nat)
    requires |s| >= HEADER_SIZE ==> |s| < MessageLength(s) <= size
    ensures Parse(s, size) == Parsed([], s, false)
  {
  }

  lemma {:induction false} ParseCorrupt(s: seq<byte>, size: nat)
    requires |s| >= HEADER_SIZE && MessageLength(s) > size
    ensures Parse(s, size) == Parsed([], s, true)
  {
  }

  /** What is read, is the messages and what remains, in order; no message is cut short or joined to the next. */
  lemma {:induction false} ParseLosesNothing(s: seq<byte>, size: nat)
    requires size >= HEADER_SIZE
    ensures var p := Parse(s, size);
      s == Flatten(p.messages) + p.rest && (forall m <- p.messages :: WellFormed(m, size))
      && (!p.corrupt ==> |p.rest| < size && Parse(p.rest, size) == Parsed([], p.rest, false))
    decreases |s|
  {
    hide Parse, WellFormed;
    if |s| >= HEADER_SIZE && MessageLength(s) > size {
      ParseCorrupt(s, size);
      Nothing(s);
    } else if |s| >= HEADER_SIZE && MessageLength(s) <= |s| {
      var n := MessageLength(s);
      ParseWhole(s, size);
      ParseLosesNothing(s[n..], size);
      OneMore(s[..n], Parse(s[n..], size), size);
      assert s == s[..n] + s[n..];
    } else {
      ParsePart(s, size);
      Nothing(s);
    }
  }

  lemma {:induction false} Nothing(s: seq<byte>)
    ensures s == Flatten([]) + s
  {
  }

  lemma {:induction false} OneMore(m: seq<byte>, p: Parsed, size: nat)
    requires HEADER_SIZE <= |m| <= size && MessageLength(m) == |m| && forall x <- p.messages :: WellFormed(x, size)
    ensures Flatten([m] + p.messages) + p.rest == m + (Flatten(p.messages) + p.rest)
    ensures forall x <- [m] + p.messages :: WellFormed(x, size)
  {
    assert ([m] + p.messages)[1..] == p.messages;
  }

  /** Well-formed messages are found again, also when the start of another one follows. */
  lemma {:induction false} ParseFinds(messages: seq<seq<byte>>, rest: seq<byte>, size: nat)
    requires forall m <- messages :: WellFormed(m, size)
    requires Parse(rest, size) == Parsed([], rest, false)
    ensures Parse(Flatten(messages) + rest, size) == Parsed(messages, rest, false)
  {
    hide Parse;
    if messages == [] {
      assert Flatten(messages) + rest == rest;
    } else {
      var m, more := messages[0], Flatten(messages[1..]) + rest;
      var s := Flatten(messages) + rest;
      assert m in messages;
      assert s == m + more;
      assert s[..|m|] == m && s[|m|..] == more;
      assert s[12] == m[12] && s[13] == m[13];
      ParseFinds(messages[1..], rest, size);
      ParseWhole(s, size);
      assert messages == [m] + messages[1..];
    }
  }

  /** Bytes may be read in two goes: the messages are the same. */
  lemma {:induction false} ParseConcat(a: seq<byte>, b: seq<byte>, size: nat)
    ensures var p := Parse(a, size);
      if p.corrupt then
        Parse(a + b, size) == p.(rest := p.rest + b)
      else
        var q := Parse(p.rest + b, size); Parse(a + b, size) == q.(messages := p.messages + q.messages)
    decreases |a|
  {
    hide Parse;
    if |a| < HEADER_SIZE {
      ParsePart(a, size);
      NoMore(a, b, size);
      return;
    }
    var n := MessageLength(a);
    assert (a + b)[12] == a[12] && (a + b)[13] == a[13];
    if n > size {
      ParseCorrupt(a, size);
      ParseCorrupt(a + b, size);
    } else if n > |a| {
      ParsePart(a, size);
      NoMore(a, b, size);
    } else {
      assert (a + b)[n..] == a[n..] + b && (a + b)[..n] == a[..n];
      ParseWhole(a, size);
      ParseWhole(a + b, size);
      ParseConcat(a[n..], b, size);
      var p := Parse(a[n..], size);
      var q := Parse(p.rest + b, size);
      assert [a[..n]] + (p.messages + q.messages) == ([a[..n]] + p.messages) + q.messages;
    }
  }

  lemma {:induction false} NoMore(a: seq<byte>, b: seq<byte>, size: nat)
    ensures var q := Parse(a + b, size); q == q.(messages := [] + q.messages)
  {
  }

  /** A complete message is delivered, and the rest is still to be parsed. */
  lemma {:induction false} Delivers(delivered: seq<seq<byte>>, held: seq<byte>, n: nat, size: nat)
    requires |held| >= HEADER_SIZE && n == MessageLength(held) <= size && n <= |held|
    ensures var p, q := Parse(held, size), Parse(held[n..], size);
      p.(messages := delivered + p.messages) == q.(messages := delivered + [held[..n]] + q.messages)
  {
    ParseWhole(held, size);
    hide Parse;
    var q := Parse(held[n..], size);
    assert delivered + ([held[..n]] + q.messages) == delivered + [held[..n]] + q.messages;
  }

  /** Part of a message is held until there is more of it. */
  lemma {:induction false} Held(held: seq<byte>, delivered: seq<seq<byte>>, input: seq<byte>, size: nat)
    requires |held| >= HEADER_SIZE ==> |held| < MessageLength(held) <= size
    requires var p, all := Parse(held, size), Parse(input, size); all == p.(messages := delivered + p.messages)
    ensures Parse(input, size) == Parsed(delivered, held, false)
  {
    ParsePart(held, size);
    assert delivered + [] == delivered;
  }

  /** The receive side of a connection: a buffer that is filled from the socket and worked off in place. */
  class Receiver {
    const data: array<byte>
    var offset: nat
    var length: nat
    var open: bool
    /** The messages handed on. */
    var delivered: seq<seq<byte>>
    /** All bytes read from the socket. */
    ghost var input: seq<byte>

    constructor (size: nat)
      requires size >= HEADER_SIZE
      ensures fresh(data) && data.Length == size && Synchronised() && input == [] && open
    {
      data := new byte[size](_ => 0);
      offset, length, open := 0, 0, true;
      delivered, input := [], [];
    }

    ghost predicate Shape()
      reads this`offset, this`length
    {
      HEADER_SIZE <= data.Length && offset + length <= data.Length
    }

    /** What was read has been parsed so far: delivered, with the bytes held still to be worked off. */
    ghost predicate Underway()
      reads this, data
    {
      && Shape()
      && var p := Parse(data[..offset + length], data.Length);
         var all := Parse(input, data.Length);
         all == p.(messages := delivered + p.messages) && open
    }

    /** Between reads: delivered are the complete messages of the input, and the buffer has room for more. */
    ghost predicate Synchronised()
      reads this, data
    {
      && Shape() && length == 0
      && var all := Parse(input, data.Length);
         all.messages == delivered && open == !all.corrupt
         && (open ==> all.rest == data[..offset] && offset < data.Length)
    }

    /** The callback: works off one message, and returns how many bytes there are to be looked at again. */
    method Callback() returns (again: nat)
      requires Underway()
      modifies this`offset, this`length, this`open, this`delivered, data
      ensures again == 0 ==> Synchronised()
      ensures again > 0 ==> Underway() && length == 0 && again == offset < old(offset + length)
    {
      hide Parse;
      var len := offset + length;
      offset := len;
      length := 0;
      ghost var held := data[..len];
      if len < HEADER_SIZE {
        Held(held, delivered, input, data.Length);
        return 0;
      }
      var msgLen := HEADER_SIZE + data[12] + 256 * (data[13] as int);
      assert msgLen == MessageLength(held);
      if msgLen > data.Length {
        open := false;
        ParseCorrupt(held, data.Length);
        return 0;
      }
      if len < msgLen {
        Held(held, delivered, input, data.Length);
        return 0;
      }
      Delivers(delivered, held, msgLen, data.Length);
      assert data[..msgLen] == held[..msgLen] && data[msgLen..len] == held[msgLen..];
      delivered := delivered + [data[..msgLen]];
      offset := len - msgLen;
      if offset != 0 { MoveDown(msgLen, len); }
      assert data[..offset + length] == held[msgLen..];
      if offset == 0 { Held(held[msgLen..], delivered, input, data.Length); }
      return offset;
    }

    /** Moves what is behind a message to the front of the buffer. */
    method MoveDown(from: nat, to: nat)
      requires from <= to <= data.Length
      modifies data
      ensures data[..to - from] == old(data[from..to])
    {
      forall k | 0 <= k < to - from { data[k] := data[k + from]; }
    }

    /** Works off what the socket has put behind the bytes held. */
    method Executed(chunk: seq<byte>)
      requires Synchronised() && open && 0 < |chunk| <= data.Length - offset
      modifies this`offset, this`length, this`open, this`delivered, this`input, data
      ensures Synchronised() && input == old(input) + chunk
    {
      hide Parse;
      forall k | 0 <= k < |chunk| { data[offset + k] := chunk[k]; }
      length := |chunk|;
      ParseConcat(input, chunk, data.Length);
      assert data[..offset + length] == Parse(input, data.Length).rest + chunk;
      input := input + chunk;
      var again := Callback();
      while again > 0
        invariant again > 0 ==> Underway() && length == 0 && again == offset
        invariant again == 0 ==> Synchronised()
        invariant input == old(input) + chunk
        decreases again
      {
        again := Callback();
      }
    }

    /** Receives `wire`, at most as much at a time as the socket gives and the buffer has room for. */
    method Receive(wire: seq<byte>, sizes: seq<nat>)
      requires Synchronised() && open
      modifies this`offset, this`length, this`open, this`delivered, this`input, data
      ensures Synchronised() && input <= old(input) + wire
      ensures open && |sizes| >= |wire| && (forall n <- sizes :: n > 0) ==> input == old(input) + wire
    {
      hide Parse;
      var at := 0;
      var k := 0;
      while open && at < |wire| && k < |sizes|
        invariant 0 <= at <= |wire| && k <= |sizes|
        invariant Synchronised() && input == old(input) + wire[..at]
        invariant (forall n <- sizes :: n > 0) ==> at >= k || at == |wire|
        decreases |sizes| - k
      {
        var room := data.Length - offset;
        var n := if sizes[k] < room then sizes[k] else room;
        n := if n < |wire| - at then n else |wire| - at;
        assert sizes[k] in sizes;
        if n > 0 {
          Executed(wire[at..at + n]);
          assert wire[..at + n] == wire[..at] + wire[at..at + n];
          at := at + n;
        }
        k := k + 1;
      }
    }
  }

  /** Whatever the chunks, well-formed messages sent one after the other are delivered as they were sent. */
  method SentIsDelivered(r: Receiver, messages: seq<seq<byte>>, sizes: seq<nat>)
    requires r.Synchronised() && r.input == [] && r.open
    requires forall m <- messages :: WellFormed(m, r.data.Length)
    requires |sizes| >= |Flatten(messages)| && forall n <- sizes :: n > 0
    modifies r`offset, r`length, r`open, r`delivered, r`input, r.data
    ensures r.open && r.delivered == messages && r.offset == 0
  {
    var wire := Flatten(messages);
    r.Receive(wire, sizes);
    ParseFinds(messages, [], r.data.Length);
    assert wire + [] == wire && [] + wire == wire;
    Prefix(r.input, wire, r.data.Length);
  }

  /** Only corrupt bytes end a stream early. */
  lemma {:induction false} Prefix(a: seq<byte>, s: seq<byte>, size: nat)
    requires a <= s && !Parse(s, size).corrupt
    ensures !Parse(a, size).corrupt
  {
    assert s == a + s[|a|..];
    ParseConcat(a, s[|a|..], size);
  }
}
