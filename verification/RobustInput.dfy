/**
 The buffered input of Lab7_proxylab/csapp.c.  What the calls of read() will
 return is a list of outcomes; the calls deliver what those outcomes say,
 whatever the sizes of the chunks and however often a signal interrupts.
 */
module RobustInput {
  import opened Sequences

  newtype byte = x: int | 0 <= x < 256

  const NEWLINE: byte := 10
  const RIO_BUFSIZE := 8192
  const INT_MAX := 0x7fff_ffff

  /** What one call of read() does; after the last outcome it reports EOF. */
  datatype Outcome = Data(bytes: seq<byte>) | Closed | Interrupted | Broken

  /** The same, one byte at a time and without the interruptions. */
  datatype Event = Byte(b: byte) | Eof | Error

  /** read() returns at least one and at most as many bytes as the buffer holds. */
  predicate Sane(input: seq<Outcome>) {
    forall i :: 0 <= i < |input| ==> input[i].Data? ==> 0 < |input[i].bytes| <= RIO_BUFSIZE
  }

  function Bytes(bs: seq<byte>): (ev: seq<Event>)
    ensures |ev| == |bs| && forall i :: 0 <= i < |bs| ==> ev[i] == Byte(bs[i])
  {
    seq(|bs|, i requires 0 <= i < |bs| => Byte(bs[i]))
  }

  lemma BytesConcat(x: seq<byte>, y: seq<byte>)
    ensures Bytes(x + y) == Bytes(x) + Bytes(y)
  {
  }

  function FlatOne(o: Outcome): seq<Event> {
    match o
    case Data(bs) => Bytes(bs)
    case Closed => [Eof]
    case Interrupted => []
    case Broken => [Error]
  }

  function Flat(input: seq<Outcome>): seq<Event> {
    if input == [] then [] else FlatOne(input[0]) + Flat(input[1..])
  }

  // ---------------------------------------------------- what a call delivers

  datatype End = Full | AtEof | Failed

  datatype Taken = Taken(got: seq<byte>, rest: seq<Event>, end: End)

  /** At most n bytes of the events, up to EOF, an error or, for a line, a newline. */
  function Take(ev: seq<Event>, n: nat, line: bool): Taken
    decreases n
  {
    if n == 0 then Taken([], ev, Full)
    else if ev == [] then Taken([], [], AtEof)
    else match ev[0]
      case Eof => Taken([], ev[1..], AtEof)
      case Error => Taken([], ev[1..], Failed)
      case Byte(c) =>
        if line && c == NEWLINE then Taken([c], ev[1..], Full)
        else var t := Take(ev[1..], n - 1, line); t.(got := [c] + t.got)
  }

  /** The most bytes rio_readlineb reads: one is left for the terminator. */
  function LineLimit(maxlen: nat): nat {
    if maxlen == 0 then 0 else maxlen - 1
  }

  function Prepend(bs: seq<byte>, t: Taken): Taken {
    t.(got := bs + t.got)
  }

  lemma FirstOfBytes(bs: seq<byte>, ev: seq<Event>)
    requires bs != []
    ensures bs == [bs[0]] + bs[1..]
    ensures (Bytes(bs) + ev)[0] == Byte(bs[0]) && (Bytes(bs) + ev)[1..] == Bytes(bs[1..]) + ev
  {
  }

  /** Bytes that are neither too many nor beyond a newline are delivered in front of the rest. */
  lemma {:induction false} TakeAfter(bs: seq<byte>, ev: seq<Event>, n: nat, line: bool)
    requires |bs| <= n && (line ==> NEWLINE !in bs)
    ensures Take(Bytes(bs) + ev, n, line) == Prepend(bs, Take(ev, n - |bs|, line))
  {
    var t := Take(ev, n - |bs|, line);
    if bs == [] {
      assert Bytes(bs) + ev == ev && bs + t.got == t.got;
    } else {
      FirstOfBytes(bs, ev);
      TakeAfter(bs[1..], ev, n - 1, line);
      Associative([bs[0]], bs[1..], t.got);
    }
  }

  /** The same behind what has been delivered before. */
  lemma TakeMore(done: seq<byte>, bs: seq<byte>, ev: seq<Event>, n: nat, line: bool)
    requires |bs| <= n && (line ==> NEWLINE !in bs)
    ensures Prepend(done, Take(Bytes(bs) + ev, n, line)) == Prepend(done + bs, Take(ev, n - |bs|, line))
  {
    hide Take;
    TakeAfter(bs, ev, n, line);
    var t := Take(ev, n - |bs|, line);
    assert done + (bs + t.got) == (done + bs) + t.got;
  }

  /** Where a call stops. */
  lemma TakeStops(done: seq<byte>, ev: seq<Event>, n: nat, line: bool)
    ensures Prepend(done, Take(ev, 0, line)) == Taken(done, ev, Full)
    ensures n > 0 ==> Prepend(done, Take([], n, line)) == Taken(done, [], AtEof)
    ensures n > 0 ==> Prepend(done, Take([Eof] + ev, n, line)) == Taken(done, ev, AtEof)
    ensures n > 0 ==> Prepend(done, Take([Error] + ev, n, line)) == Taken(done, ev, Failed)
    ensures n > 0 ==> Prepend(done, Take([Byte(NEWLINE)] + ev, n, true)) == Taken(done + [NEWLINE], ev, Full)
  {
    assert done + [] == done;
    assert ([Eof] + ev)[1..] == ev && ([Error] + ev)[1..] == ev && ([Byte(NEWLINE)] + ev)[1..] == ev;
  }

  // ------------------------------------------------------------- rio_t

  class Rio {
    var rio_cnt: int
    var rio_bufptr: nat
    const rio_buf: array<byte>
    /** What read() is still going to return. */
    var input: seq<Outcome>

    ghost predicate Valid()
      reads this
    {
      && rio_buf.Length == RIO_BUFSIZE && Sane(input)
      && (rio_cnt > 0 ==> rio_bufptr + rio_cnt <= RIO_BUFSIZE)
    }

    ghost function Buffered(): seq<byte>
      requires Valid()
      reads this, rio_buf
    {
      if rio_cnt > 0 then rio_buf[rio_bufptr..rio_bufptr + rio_cnt] else []
    }

    /** Everything the calls to come have before them. */
    ghost function Ahead(): seq<Event>
      requires Valid()
      reads this, rio_buf
    {
      Bytes(Buffered()) + Flat(input)
    }

    /** rio_readinitb on a descriptor whose read() calls go as `input` says. */
    constructor (input: seq<Outcome>)
      requires Sane(input)
      ensures Valid() && fresh(rio_buf) && Ahead() == Flat(input)
    {
      rio_cnt := 0;
      rio_bufptr := 0;
      rio_buf := new byte[RIO_BUFSIZE];
      this.input := input;
      new;
      assert Ahead() == Flat(input);
    }

    /** read() into the buffer: the count, or -1 and whether errno is EINTR. */
    method Read() returns (cnt: int, eintr: bool)
      requires Valid() && rio_cnt <= 0
      modifies this`input, rio_buf
      ensures Valid() && |input| <= |old(input)| && -1 <= cnt <= RIO_BUFSIZE
      ensures cnt != 0 ==> |input| < |old(input)|
      ensures cnt > 0 ==> Flat(old(input)) == Bytes(rio_buf[..cnt]) + Flat(input)
      ensures cnt == 0 ==> (Flat(old(input)) == [] == Flat(input) || Flat(old(input)) == [Eof] + Flat(input))
      ensures cnt < 0 ==> Flat(old(input)) == (if eintr then [] else [Error]) + Flat(input)
    {
      eintr := false;
      if input == [] {
        return 0, false;
      }
      var o := input[0];
      input := input[1..];
      match o
      case Data(bs) =>
        forall k | 0 <= k < |bs| {
          rio_buf[k] := bs[k];
        }
        cnt := |bs|;
        assert rio_buf[..cnt] == bs;
      case Closed => cnt := 0;
      case Interrupted => cnt, eintr := -1, true;
      case Broken => cnt := -1;
    }

    /** The loop of rio_read: 1 when the buffer has bytes to deliver. */
    method Refill() returns (r: int)
      requires Valid()
      modifies this, rio_buf
      ensures Valid() && -1 <= r <= 1
      ensures r > 0 ==> rio_cnt > 0 && Ahead() == old(Ahead())
      ensures r == 0 ==> (old(Ahead()) == [] == Ahead() || old(Ahead()) == [Eof] + Ahead())
      ensures r < 0 ==> old(Ahead()) == [Error] + Ahead()
      ensures old(rio_cnt) > 0 ==> r > 0 && rio_cnt == old(rio_cnt) && input == old(input)
    {
      hide Flat;
      while rio_cnt <= 0
        invariant Valid() && Ahead() == old(Ahead())
        invariant old(rio_cnt) > 0 ==> rio_cnt == old(rio_cnt) && input == old(input)
        decreases |input|
      {
        EmptyBuffer();
        var cnt, eintr := Read();
        rio_cnt := cnt;
        if rio_cnt < 0 {
          EmptyBuffer();
          if !eintr {
            return -1;
          }
        } else if rio_cnt == 0 {
          EmptyBuffer();
          return 0;
        } else {
          rio_bufptr := 0;
        }
      }
      r := 1;
    }

    lemma EmptyBuffer()
      requires Valid() && rio_cnt <= 0
      ensures Ahead() == Flat(input)
    {
    }

    /** rio_read; the caller's buffer is given as an array and an offset into it. */
    method RioRead(usrbuf: array<byte>, at: nat, n: nat) returns (r: int)
      requires Valid() && usrbuf != rio_buf && 0 < n && at + n <= usrbuf.Length
      modifies this, rio_buf, usrbuf
      ensures Valid() && -1 <= r <= n
      ensures r > 0 ==> old(Ahead()) == Bytes(usrbuf[at..at + r]) + Ahead()
      ensures r == 0 ==> (old(Ahead()) == [] == Ahead() || old(Ahead()) == [Eof] + Ahead())
      ensures r < 0 ==> old(Ahead()) == [Error] + Ahead()
      ensures forall k :: 0 <= k < usrbuf.Length && !(at <= k < at + r) ==> usrbuf[k] == old(usrbuf[k])
      // short only when the buffer is used up, and read() is called only when it was
      ensures 0 < r < n ==> rio_cnt == 0
      ensures old(rio_cnt) > 0 ==> input == old(input) && r == if old(rio_cnt) < n then old(rio_cnt) else n
    {
      hide Flat;
      r := Refill();
      if r > 0 {
        r := Deliver(usrbuf, at, n);
      }
    }

    /** The end of rio_read. */
    method Deliver(usrbuf: array<byte>, at: nat, n: nat) returns (cnt: int)
      requires Valid() && rio_cnt > 0 && usrbuf != rio_buf && 0 < n && at + n <= usrbuf.Length
      modifies this`rio_cnt, this`rio_bufptr, usrbuf
      ensures Valid() && 0 < cnt <= n && cnt == (if old(rio_cnt) < n then old(rio_cnt) else n) && rio_cnt == old(rio_cnt) - cnt
      ensures old(Ahead()) == Bytes(usrbuf[at..at + cnt]) + Ahead()
      ensures forall k :: 0 <= k < usrbuf.Length && !(at <= k < at + cnt) ==> usrbuf[k] == old(usrbuf[k])
    {
      hide Flat;
      cnt := n;
      if rio_cnt < n {
        cnt := rio_cnt;
      }
      ghost var bs := Buffered();
      CopyOut(usrbuf, at, cnt);
      rio_bufptr := rio_bufptr + cnt;
      rio_cnt := rio_cnt - cnt;
      assert bs == usrbuf[at..at + cnt] + Buffered();
      BytesConcat(usrbuf[at..at + cnt], Buffered());
    }

    /** The memcpy of rio_read. */
    method CopyOut(usrbuf: array<byte>, at: nat, cnt: nat)
      requires Valid() && usrbuf != rio_buf && 0 < cnt <= rio_cnt && at + cnt <= usrbuf.Length
      modifies usrbuf
      ensures usrbuf[at..at + cnt] == rio_buf[rio_bufptr..rio_bufptr + cnt]
      ensures forall k :: 0 <= k < usrbuf.Length && !(at <= k < at + cnt) ==> usrbuf[k] == old(usrbuf[k])
    {
      forall k | 0 <= k < cnt {
        usrbuf[at + k] := rio_buf[rio_bufptr + k];
      }
      assert forall k :: at <= k < at + cnt ==> usrbuf[k] == rio_buf[rio_bufptr + (k - at)];
    }

    /** rio_readnb */
    method RioReadnb(usrbuf: array<byte>, n: nat) returns (r: int)
      requires Valid() && usrbuf != rio_buf && n <= usrbuf.Length
      modifies this, rio_buf, usrbuf
      ensures Valid()
      ensures var t := Take(old(Ahead()), n, false);
        && Ahead() == t.rest && |t.got| <= n && usrbuf[..|t.got|] == t.got
        && r == (if t.end == Failed then -1 else |t.got|)
        && forall k :: |t.got| <= k < usrbuf.Length ==> usrbuf[k] == old(usrbuf[k])
      ensures var p := Reachable(old(Ahead()));
        && -1 <= r <= n && (r < 0 <==> EndsInError(old(Ahead())) && |p| < n)
        && (r >= 0 ==> r == (if |p| < n then |p| else n) && usrbuf[..r] == p[..r])
    {
      hide Take, Prepend, Flat, Rio.Buffered, Rio.Ahead, Bytes, Reachable, EndsInError;
      TakeExact(Ahead(), n);
      TakeFails(Ahead(), n, false);
      var nleft := n;
      TakeNothing(Take(Ahead(), n, false));
      while nleft > 0
        invariant Valid() && 0 <= nleft <= n
        invariant Take(old(Ahead()), n, false) == Prepend(usrbuf[..n - nleft], Take(Ahead(), nleft, false))
        invariant forall k :: n - nleft <= k < usrbuf.Length ==> usrbuf[k] == old(usrbuf[k])
      {
        var nread := ReadMore(usrbuf, n - nleft, nleft);
        if nread < 0 {
          return -1;
        } else if nread == 0 {
          return n - nleft;
        }
        nleft := nleft - nread;
      }
      TakeStops(usrbuf[..n], Ahead(), 0, false);
      return n;
    }

    /** One turn of the loop of rio_readnb, behind the bytes read so far. */
    method ReadMore(usrbuf: array<byte>, at: nat, n: nat) returns (r: int)
      requires Valid() && usrbuf != rio_buf && 0 < n && at + n <= usrbuf.Length
      modifies this, rio_buf, usrbuf
      ensures Valid() && -1 <= r <= n
      ensures Prepend(old(usrbuf[..at]), Take(old(Ahead()), n, false)) ==
        if r > 0 then Prepend(usrbuf[..at + r], Take(Ahead(), n - r, false))
        else Taken(usrbuf[..at], Ahead(), if r == 0 then AtEof else Failed)
      ensures forall k :: at + r <= k < usrbuf.Length && k >= at ==> usrbuf[k] == old(usrbuf[k])
    {
      hide Take, Prepend, Flat, Rio.Buffered, Rio.Ahead, Bytes;
      ghost var done := usrbuf[..at];
      r := RioRead(usrbuf, at, n);
      assert usrbuf[..at] == done;
      if r > 0 {
        TakeMore(done, usrbuf[at..at + r], Ahead(), n, false);
        assert usrbuf[..at + r] == done + usrbuf[at..at + r];
      } else {
        TakeStops(done, Ahead(), n, false);
      }
    }

    /** rio_readlineb; n counts in an int, and the terminator takes a byte of the
        buffer even when maxlen is 0. */
    method RioReadlineb(usrbuf: array<byte>, maxlen: nat) returns (r: int)
      requires Valid() && usrbuf != rio_buf && 0 < usrbuf.Length && maxlen <= usrbuf.Length && maxlen <= INT_MAX
      modifies this, rio_buf, usrbuf
      ensures Valid()
      ensures var t := Take(old(Ahead()), LineLimit(maxlen), true);
        && Ahead() == t.rest && |t.got| <= LineLimit(maxlen) && usrbuf[..|t.got|] == t.got
        && r == (if t.end == Failed then -1 else |t.got|)
        && (r < 0 || (t.end == AtEof && r == 0) || usrbuf[r] == 0)
        && forall k :: |t.got| < k < usrbuf.Length ==> usrbuf[k] == old(usrbuf[k])
      ensures var p := Reachable(old(Ahead()));
        && (maxlen == 0 ==> r == 0 && Ahead() == old(Ahead()))
        && (maxlen > 0 ==> (r < 0 <==> EndsInError(old(Ahead())) && |p| < maxlen - 1 && NEWLINE !in p))
        && (maxlen > 0 && r >= 0 ==> IsLine(p, maxlen - 1, r) && usrbuf[..r] == p[..r])
    {
      hide Take, Prepend, Flat, Rio.Buffered, Rio.Ahead, Reachable, EndsInError, IsLine;
      LineDelivered(Ahead(), maxlen);
      var c := new byte[1];
      var n, bufp := 1, 0;
      TakeNothing(Take(Ahead(), LineLimit(maxlen), true));
      while n < maxlen
        invariant Valid() && 1 <= n && bufp == n - 1 <= LineLimit(maxlen)
        invariant forall k :: bufp <= k < usrbuf.Length ==> usrbuf[k] == old(usrbuf[k])
        invariant Take(old(Ahead()), LineLimit(maxlen), true) == Prepend(usrbuf[..bufp], Take(Ahead(), LineLimit(maxlen) - bufp, true))
      {
        ghost var done := usrbuf[..bufp];
        var rc := RioRead(c, 0, 1);
        assert usrbuf[..bufp] == done;
        TakeStops(done, Ahead(), maxlen - n, true);
        if rc == 1 {
          usrbuf[bufp] := c[0];
          bufp := bufp + 1;
          assert c[0..1] == [c[0]] && usrbuf[..bufp] == done + [c[0]];
          if c[0] == NEWLINE {
            n := n + 1;
            assert Bytes([NEWLINE]) == [Byte(NEWLINE)];
            usrbuf[bufp] := 0;
            return n - 1;
          }
          TakeMore(done, [c[0]], Ahead(), maxlen - n, true);
        } else if rc == 0 {
          if n == 1 {
            return 0;
          } else {
            usrbuf[bufp] := 0;
            return n - 1;
          }
        } else {
          return -1;
        }
        n := n + 1;
      }
      TakeStops(usrbuf[..bufp], Ahead(), 0, true);
      usrbuf[bufp] := 0;
      return n - 1;
    }
  }

  lemma TakeNothing(t: Taken)
    ensures Prepend([], t) == t
  {
    assert [] + t.got == t.got;
  }

  // ------------------------------------------------------------ the stream

  function BytesOf(ev: seq<Event>): seq<byte> {
    if ev == [] then [] else (if ev[0].Byte? then [ev[0].b] else []) + BytesOf(ev[1..])
  }

  /** No byte is lost, repeated or reordered by a call. */
  lemma {:induction false} TakeConserves(ev: seq<Event>, n: nat, line: bool)
    ensures var t := Take(ev, n, line);
      BytesOf(ev) == t.got + BytesOf(t.rest) && |t.got| <= n
    decreases n
  {
    if n > 0 && ev != [] && ev[0].Byte? && !(line && ev[0].b == NEWLINE) {
      TakeConserves(ev[1..], n - 1, line);
    }
  }

  datatype Call = Readnb(n: nat) | Readlineb(maxlen: nat)

  function Serve(ev: seq<Event>, call: Call): Taken {
    match call
    case Readnb(n) => Take(ev, n, false)
    case Readlineb(maxlen) => Take(ev, LineLimit(maxlen), true)
  }

  /** What a mix of calls delivers, up to the first that fails. */
  function Delivered(ev: seq<Event>, calls: seq<Call>): seq<byte>
    decreases |calls|
  {
    if calls == [] then []
    else var t := Serve(ev, calls[0]);
      if t.end == Failed then [] else t.got + Delivered(t.rest, calls[1..])
  }

  lemma {:induction false} DeliveredIsPrefix(ev: seq<Event>, calls: seq<Call>)
    ensures Delivered(ev, calls) <= BytesOf(ev)
    decreases |calls|
  {
    if calls != [] {
      var t := Serve(ev, calls[0]);
      match calls[0] {
        case Readnb(n) => TakeConserves(ev, n, false);
        case Readlineb(m) => TakeConserves(ev, LineLimit(m), true);
      }
      DeliveredIsPrefix(t.rest, calls[1..]);
    }
  }

  /** Any calls on one rio_t, up to the first that fails, each into a buffer of
      its own: what they hand out. */
  method ReadAll(rp: Rio, calls: seq<Call>) returns (out: seq<byte>)
    requires rp.Valid() && forall i :: 0 <= i < |calls| ==> calls[i].Readlineb? ==> calls[i].maxlen <= INT_MAX
    modifies rp, rp.rio_buf
    ensures rp.Valid() && out == Delivered(old(rp.Ahead()), calls) <= BytesOf(old(rp.Ahead()))
  {
    hide Take, Flat, Rio.Ahead, Rio.Buffered, BytesOf;
    DeliveredIsPrefix(rp.Ahead(), calls);
    out := [];
    for i := 0 to |calls|
      invariant rp.Valid() && out + Delivered(rp.Ahead(), calls[i..]) == Delivered(old(rp.Ahead()), calls)
    {
      ghost var t := Serve(rp.Ahead(), calls[i]);
      assert calls[i..][1..] == calls[i + 1..];
      var size := match calls[i] case Readnb(n) => n case Readlineb(maxlen) => if maxlen == 0 then 1 else maxlen;
      var usrbuf := new byte[size];
      var r;
      match calls[i] {
        case Readnb(n) => r := rp.RioReadnb(usrbuf, n);
        case Readlineb(maxlen) => r := rp.RioReadlineb(usrbuf, maxlen);
      }
      if r < 0 {
        assert out + [] == out;
        return;
      }
      Associative(out, t.got, Delivered(rp.Ahead(), calls[i + 1..]));
      out := out + usrbuf[..r];
    }
    assert out + [] == out;
  }

  /** Two reads that fill their buffers deliver what one read of both sizes does. */
  lemma {:induction false} ReadsCompose(ev: seq<Event>, m: nat, n: nat)
    requires Take(ev, m, false).end == Full
    ensures var t := Take(ev, m, false); var u := Take(t.rest, n, false);
      Take(ev, m + n, false) == u.(got := t.got + u.got)
    decreases m
  {
    var t := Take(ev, m, false);
    var u := Take(t.rest, n, false);
    if m == 0 {
      assert t.got + u.got == u.got;
    } else {
      ReadsCompose(ev[1..], m - 1, n);
      var v := Take(ev[1..], m - 1, false);
      assert t.got + u.got == [ev[0].b] + (v.got + u.got);
    }
  }

  // --------------------------------------------------------------- lines

  /** The bytes before the first EOF or error. */
  function Reachable(ev: seq<Event>): seq<byte> {
    if ev == [] || !ev[0].Byte? then [] else [ev[0].b] + Reachable(ev[1..])
  }

  /** The first k bytes are a line of at most m bytes: nothing after a newline, and not cut short. */
  ghost predicate IsLine(p: seq<byte>, m: nat, k: nat) {
    && k <= m && k <= |p|
    && (forall i :: 0 <= i < k - 1 ==> p[i] != NEWLINE)
    && (k == m || k == |p| || (k > 0 && p[k - 1] == NEWLINE))
  }

  lemma LineStep(p: seq<byte>, m: nat, k: nat)
    requires m > 0 && p != [] && p[0] != NEWLINE
    ensures IsLine(p, m, k + 1) <==> IsLine(p[1..], m - 1, k)
  {
    var q := p[1..];
    if IsLine(q, m - 1, k) {
      forall i | 0 <= i < k
        ensures p[i] != NEWLINE
      {
        if i > 0 {
          assert q[i - 1] != NEWLINE;
        }
      }
    }
    assert k > 0 && k <= |q| ==> q[k - 1] == p[k];
    assert forall i :: 0 <= i < |q| ==> q[i] == p[i + 1];
  }

  /** Where the line ends at once. */
  lemma LineEnds(ev: seq<Event>, m: nat, k: nat)
    requires m == 0 || ev == [] || !ev[0].Byte? || ev[0].b == NEWLINE
    ensures var t := Take(ev, m, true); var p := Reachable(ev);
      t.got <= p && (IsLine(p, m, k) <==> k == |t.got|)
  {
    var p := Reachable(ev);
    if m > 0 && p != [] {
      assert p[0] == NEWLINE;
    }
  }

  lemma LineNotEmpty(p: seq<byte>, m: nat)
    requires m > 0 && p != []
    ensures !IsLine(p, m, 0)
  {
  }

  /** A line call delivers the one line there is. */
  lemma {:induction false} LineExact(ev: seq<Event>, m: nat, k: nat)
    ensures var t := Take(ev, m, true); var p := Reachable(ev);
      t.got <= p && (IsLine(p, m, k) <==> k == |t.got|)
    decreases m
  {
    hide IsLine;
    if m > 0 && ev != [] && ev[0].Byte? && ev[0].b != NEWLINE {
      var p := Reachable(ev);
      assert p[0] == ev[0].b && p[1..] == Reachable(ev[1..]);
      if k > 0 {
        LineExact(ev[1..], m - 1, k - 1);
        LineStep(p, m, k - 1);
      } else {
        LineExact(ev[1..], m - 1, 0);
        LineNotEmpty(p, m);
      }
    } else {
      LineEnds(ev, m, k);
    }
  }

  /** It stops for the newline or for want of room, and otherwise for the end. */
  lemma {:induction false} LineFull(ev: seq<Event>, m: nat)
    ensures var t := Take(ev, m, true);
      t.end == Full <==> |t.got| == m || (t.got != [] && t.got[|t.got| - 1] == NEWLINE)
    decreases m
  {
    if m > 0 && ev != [] && ev[0].Byte? && ev[0].b != NEWLINE {
      LineFull(ev[1..], m - 1);
      var u := Take(ev[1..], m - 1, true);
      assert u.got != [] ==> ([ev[0].b] + u.got)[|u.got|] == u.got[|u.got| - 1];
    }
  }

  /** The bytes that can be reached end with an error. */
  predicate EndsInError(ev: seq<Event>) {
    |Reachable(ev)| < |ev| && ev[|Reachable(ev)|] == Error
  }

  /** A call fails exactly if it meets the error before it has enough. */
  lemma {:induction false} TakeFails(ev: seq<Event>, n: nat, line: bool)
    ensures var p := Reachable(ev);
      Take(ev, n, line).end == Failed <==> EndsInError(ev) && |p| < n && (line ==> NEWLINE !in p)
    decreases n
  {
    if n > 0 && ev != [] && ev[0].Byte? {
      var p, q := Reachable(ev), Reachable(ev[1..]);
      assert p == [ev[0].b] + q;
      InAppend([ev[0].b], q, NEWLINE);
      if !(line && ev[0].b == NEWLINE) {
        TakeFails(ev[1..], n - 1, line);
      }
    }
  }

  /** A read that does not fail delivers what it asks for or all there is. */
  lemma {:induction false} TakeExact(ev: seq<Event>, n: nat)
    ensures var t := Take(ev, n, false); var p := Reachable(ev);
      t.got == p[..if |p| < n then |p| else n]
    decreases n
  {
    if n > 0 && ev != [] && ev[0].Byte? {
      TakeExact(ev[1..], n - 1);
      assert Reachable(ev) == [ev[0].b] + Reachable(ev[1..]);
    }
  }

  /** What rio_readlineb delivers into a buffer of maxlen bytes. */
  lemma LineDelivered(ev: seq<Event>, maxlen: nat)
    ensures var t := Take(ev, LineLimit(maxlen), true); var p := Reachable(ev);
      && (maxlen == 0 ==> t == Taken([], ev, Full))
      && (maxlen > 0 ==> t.got <= p && IsLine(p, maxlen - 1, |t.got|))
      && (maxlen > 0 ==> (t.end == Failed <==> EndsInError(ev) && |p| < maxlen - 1 && NEWLINE !in p))
  {
    hide IsLine, Reachable, EndsInError;
    if maxlen > 0 {
      LineExact(ev, maxlen - 1, |Take(ev, maxlen - 1, true).got|);
      TakeFails(ev, maxlen - 1, true);
    }
  }

  // ------------------------------------------------- chunks and interruptions

  lemma {:induction false} FlatConcat(a: seq<Outcome>, b: seq<Outcome>)
    ensures Flat(a + b) == Flat(a) + Flat(b)
  {
    if a == [] {
      assert a + b == b;
    } else {
      hide FlatOne;
      FlatConcat(a[1..], b);
      assert (a + b)[0] == a[0] && (a + b)[1..] == a[1..] + b;
      Associative(FlatOne(a[0]), Flat(a[1..]), Flat(b));
    }
  }

  lemma FlatOfData(b: seq<byte>)
    ensures Flat([Data(b)]) == Bytes(b)
  {
    var one := [Data(b)];
    assert one[0] == Data(b) && one[1..] == [];
    assert Flat(one) == FlatOne(one[0]) + Flat(one[1..]);
  }

  lemma FlatOfParts(x: seq<byte>, y: seq<byte>)
    ensures Flat([Data(x + y)]) == Flat([Data(x), Interrupted, Data(y)])
  {
    hide Flat;
    FlatOfData(x + y);
    FlatOfData(x);
    FlatOfData(y);
    BytesConcat(x, y);
    FlatOfInterrupted();
    FlatConcat([Interrupted], [Data(y)]);
    FlatConcat([Data(x)], [Interrupted] + [Data(y)]);
    assert [Data(x), Interrupted, Data(y)] == [Data(x)] + ([Interrupted] + [Data(y)]);
  }

  lemma FlatOfInterrupted()
    ensures Flat([Interrupted]) == []
  {
    var one := [Interrupted];
    assert one[0] == Interrupted && one[1..] == [];
  }

  /** A short read or an interrupted one, anywhere, changes nothing that is delivered. */
  lemma ShortReadsInvisible(a: seq<Outcome>, x: seq<byte>, y: seq<byte>, b: seq<Outcome>, calls: seq<Call>)
    ensures Delivered(Flat(a + [Data(x + y)] + b), calls) == Delivered(Flat(a + [Data(x), Interrupted, Data(y)] + b), calls)
  {
    hide Flat, Delivered;
    var one, two := [Data(x + y)], [Data(x), Interrupted, Data(y)];
    FlatOfParts(x, y);
    FlatConcat(a + one, b);
    FlatConcat(a, one);
    FlatConcat(a + two, b);
    FlatConcat(a, two);
  }
}
