/** Cutting the output of a command in lines through a fixed buffer. */
module ReadPipe {

  type Byte = b: int | 0 <= b < 256

  const NEWLINE: Byte := 10
  const CAPACITY: nat := 64 * 1024

  // ------------------------------------------------------------------
  //  The records of a stream
  // ------------------------------------------------------------------

  /** The records that are complete, and the bytes after them. */
  datatype Cut = Cut(records: seq<seq<Byte>>, pending: seq<Byte>)

  /** A record ends with a newline, or with the buffer. */
  predicate Complete(p: seq<Byte>) {
    p != [] && (p[|p| - 1] == NEWLINE || |p| == CAPACITY)
  }

  function Feed(pending: seq<Byte>, bytes: seq<Byte>): Cut
    decreases |bytes|
  {
    if bytes == [] then Cut([], pending)
    else
      var p := pending + [bytes[0]];
      if Complete(p) then
        var more := Feed([], bytes[1..]);
        Cut([p] + more.records, more.pending)
      else Feed(p, bytes[1..])
  }

  function Flatten(records: seq<seq<Byte>>): seq<Byte> {
    if records == [] then [] else records[0] + Flatten(records[1..])
  }

  /** What the user sees: the records the pattern does not match. The pattern is tried on the
      text before the newline, as a zero terminated string. */
  function Shown(hidden: seq<Byte> -> bool, records: seq<seq<Byte>>): seq<seq<Byte>> {
    if records == [] then []
    else (if Hides(hidden, records[0]) then [] else [records[0]]) + Shown(hidden, records[1..])
  }

  predicate Hides(hidden: seq<Byte> -> bool, record: seq<Byte>) {
    hidden(BeforeNul(Line(record)))
  }

  function Line(record: seq<Byte>): seq<Byte> {
    if record != [] && record[|record| - 1] == NEWLINE then record[..|record| - 1] else record
  }

  function BeforeNul(s: seq<Byte>): seq<Byte> {
    if s == [] || s[0] == 0 then [] else [s[0]] + BeforeNul(s[1..])
  }

  lemma {:induction false} ShownSplit(hidden: seq<Byte> -> bool, a: seq<seq<Byte>>, b: seq<seq<Byte>>)
    ensures Shown(hidden, a + b) == Shown(hidden, a) + Shown(hidden, b)
  {
    hide Hides;
    if a == [] {
      assert a + b == b;
    } else {
      assert (a + b)[1..] == a[1..] + b;
      ShownSplit(hidden, a[1..], b);
      var head := if Hides(hidden, a[0]) then [] else [a[0]];
      assert head + (Shown(hidden, a[1..]) + Shown(hidden, b)) == head + Shown(hidden, a[1..]) + Shown(hidden, b);
    }
  }

  lemma {:induction false} LogGrows(hidden: seq<Byte> -> bool, log: seq<seq<Byte>>, a: seq<seq<Byte>>, b: seq<seq<Byte>>)
    ensures log + Shown(hidden, a + b) == log + Shown(hidden, a) + Shown(hidden, b)
  {
    hide Shown;
    ShownSplit(hidden, a, b);
  }

  /** A record is hidden exactly when the pattern matches its text up to the newline or the first NUL. */
  lemma {:induction false} HiddenIffMatched(hidden: seq<Byte> -> bool, text: seq<Byte>, after: seq<Byte>)
    requires 0 !in text && NEWLINE !in text && (after == [] || after == [NEWLINE] || after[0] == 0)
    ensures Shown(hidden, [text + after]) == if hidden(text) then [] else [text + after]
  {
    ShownOne(hidden, text + after);
    var line := Line(text + after);
    if after == [] {
      assert text + after == text;
      assert text != [] ==> text[|text| - 1] in text;
      TextBeforeNul(text, []);
      assert text + [] == text;
    } else if after == [NEWLINE] {
      assert line == text;
      TextBeforeNul(text, []);
      assert text + [] == text;
    } else {
      var rest := if after[|after| - 1] == NEWLINE then after[..|after| - 1] else after;
      assert line == text + rest;
      TextBeforeNul(text, rest);
    }
  }

  lemma {:induction false} TextBeforeNul(text: seq<Byte>, rest: seq<Byte>)
    requires 0 !in text && (rest == [] || rest[0] == 0)
    ensures BeforeNul(text + rest) == text
  {
    if text == [] {
      assert text + rest == rest;
    } else {
      assert (text + rest)[1..] == text[1..] + rest;
      TextBeforeNul(text[1..], rest);
    }
  }

  lemma {:induction false} ShownOne(hidden: seq<Byte> -> bool, record: seq<Byte>)
    ensures Shown(hidden, [record]) == if Hides(hidden, record) then [] else [record]
  {
    var none: seq<seq<Byte>> := [];
    assert [record][1..] == none;
  }

  function Join(records: seq<seq<Byte>>, c: Cut): Cut {
    Cut(records + c.records, c.pending)
  }

  /** `bytes` came after `before`; so far they gave `records`, `q` is in the buffer and `r` is not
      looked at yet. A full buffer is only emptied at the end. */
  ghost predicate Progress(before: seq<Byte>, bytes: seq<Byte>, records: seq<seq<Byte>>, q: seq<Byte>, r: seq<Byte>) {
    if |q| == CAPACITY then r == [] && Feed(before, bytes) == Cut(records + [q], [])
    else Feed(before, bytes) == Join(records, Feed(q, r))
  }

  lemma {:induction false} OneByte(before: seq<Byte>, bytes: seq<Byte>, records: seq<seq<Byte>>, q: seq<Byte>, r: seq<Byte>)
    requires Progress(before, bytes, records, q, r) && r != [] && |q| + |r| <= CAPACITY
    ensures var q' := q + [r[0]];
      if r[0] == NEWLINE then Progress(before, bytes, records + [q'], [], r[1..]) else Progress(before, bytes, records, q', r[1..])
  {
    var q' := q + [r[0]];
    if Complete(q') {
      var more := Feed([], r[1..]);
      assert records + ([q'] + more.records) == records + [q'] + more.records;
      if |q'| == CAPACITY {
        assert r[1..] == [];
        assert records + [q'] + [] == records + [q'];
      }
    }
  }

  lemma {:induction false} Start(before: seq<Byte>, bytes: seq<Byte>)
    requires |before| < CAPACITY
    ensures Progress(before, bytes, [], before, bytes)
  {
    assert [] + Feed(before, bytes).records == Feed(before, bytes).records;
  }

  // ------------------------------------------------------------------
  //  The code
  // ------------------------------------------------------------------

  /** A pipe: the bytes in it, and how many of them each of the next reads offers. */
  class Pipe {
    var data: seq<Byte>
    var offers: seq<nat>

    constructor (data: seq<Byte>, offers: seq<nat>)
      ensures this.data == data && this.offers == offers
    {
      this.data, this.offers := data, offers;
    }

    /** `read()` is never asked for nothing, and stays inside the buffer. Nothing read is the end
        of the pipe, or of what it holds for now. */
    method Read(buf: array<Byte>, at: nat, size: nat) returns (n: nat)
      requires 0 < size && at + size <= buf.Length
      modifies this, buf
      ensures n <= size && n <= |old(data)|
      ensures buf[..] == old(buf[..at]) + old(data)[..n] + old(buf[at + n..])
      ensures data == old(data)[n..]
      ensures n > 0 ==> |offers| < |old(offers)|
    {
      n := 0;
      if offers != [] {
        n := offers[0];
        offers := offers[1..];
        n := if n > size then size else n;
        n := if n > |data| then |data| else n;
        forall i | 0 <= i < n {
          buf[at + i] := data[i];
        }
        data := data[n..];
      }
    }
  }

  class Output {
    const hidden: seq<Byte> -> bool
    var log: seq<seq<Byte>>

    constructor (hidden: seq<Byte> -> bool)
      ensures log == [] && this.hidden == hidden
    {
      this.hidden, log := hidden, [];
    }

    /** `output_data()`: the byte after the text is a NUL while the pattern is tried. */
    method Write(str: array<Byte>, len: nat)
      requires 0 < len < str.Length
      modifies this`log, str
      ensures log == old(log) + Shown(hidden, [old(str[..len])])
      ensures str[..] == old(str[..])
    {
      ghost var record := str[..len];
      var sz := if str[len - 1] == NEWLINE then len - 1 else len;
      var saved := str[sz];
      str[sz] := 0;
      var text := str[..sz];
      str[sz] := saved;
      assert str[..] == old(str[..]);
      assert text == Line(record);
      var matched := hidden(BeforeNul(text));
      ShownOne(hidden, record);
      if matched {
        return;
      }
      log := log + [str[..len]];
    }
  }

  class IoBuf {
    var pos: nat
    const buf: array<Byte>

    ghost predicate Valid()
      reads this
    {
      buf.Length == CAPACITY + 1 && pos < CAPACITY
    }

    ghost function Pending(): seq<Byte>
      requires Valid()
      reads this, buf
    {
      buf[..pos]
    }

    constructor ()
      ensures Valid() && Pending() == []
    {
      pos := 0;
      buf := new Byte[CAPACITY + 1](_ => 0);
    }

    method MemMove(from: nat, n: nat)
      requires from + n <= buf.Length
      modifies buf
      ensures buf[..] == old(buf[from..from + n]) + old(buf[n..])
    {
      forall i | 0 <= i < n {
        buf[i] := buf[from + i];
      }
    }

    /** Writes the record before `pos`, and moves `n` bytes to the front: one more than there are
        left to look at. */
    method Emit(n: nat, out: Output)
      requires buf.Length == CAPACITY + 1 && 0 < pos && 0 < n && pos + n <= buf.Length
      modifies `pos, buf, out`log
      ensures pos == 0 && buf[..0] == [] && buf[0..n - 1] == old(buf[pos..pos + n - 1])
      ensures out.log == old(out.log) + Shown(out.hidden, [old(buf[..pos])])
    {
      hide Shown;
      ghost var all := buf[..];
      out.Write(buf, pos);
      assert buf[pos..pos + n] == all[pos..pos + n];
      MemMove(pos, n);
      assert buf[0..n - 1] == buf[..][..n][..n - 1] == all[pos..pos + n][..n - 1];
      assert all[pos..pos + n][..n - 1] == all[pos..pos + n - 1];
      pos := 0;
    }

    /** Looks at one byte of the `sz` that are left; `record` is what it completes. */
    method Look(sz: nat, out: Output) returns (ghost record: seq<seq<Byte>>)
      requires buf.Length == CAPACITY + 1 && 0 < sz && pos + sz <= CAPACITY
      modifies `pos, buf, out`log
      ensures pos + sz - 1 <= CAPACITY
      ensures var q, r := old(buf[..pos]), old(buf[pos..pos + sz]);
        && |r| == sz && buf[pos..pos + sz - 1] == r[1..]
        && (if r[0] == NEWLINE then buf[..pos] == [] && record == [q + [r[0]]] else buf[..pos] == q + [r[0]] && record == [])
      ensures out.log == old(out.log) + Shown(out.hidden, record)
    {
      hide Shown;
      ShownNone(out.hidden);
      ghost var all := buf[..];
      ghost var q, r := buf[..pos], buf[pos..pos + sz];
      assert buf[..pos + 1] == q + [r[0]] && buf[pos + 1..pos + sz] == r[1..];
      if buf[pos] == NEWLINE {
        pos := pos + 1;
        record := [buf[..pos]];
        Emit(sz, out);
      } else {
        pos := pos + 1;
        record := [];
      }
    }

    /** Looks for newlines in the `n` bytes just read. A complete record is written, and what
        comes after it is moved to the front. */
    method Scan(n: nat, out: Output) returns (ghost records: seq<seq<Byte>>)
      requires Valid() && pos + n <= CAPACITY
      modifies `pos, buf, out`log
      ensures pos <= CAPACITY
      ensures Progress(old(buf[..pos]), old(buf[pos..pos + n]), records, buf[..pos], [])
      ensures out.log == old(out.log) + Shown(out.hidden, records)
    {
      hide Progress, Shown;
      ghost var before, bytes := buf[..pos], buf[pos..pos + n];
      records := [];
      Start(before, bytes);
      ShownNone(out.hidden);
      var sz := n;
      while sz > 0
        invariant pos + sz <= CAPACITY
        invariant Progress(before, bytes, records, buf[..pos], buf[pos..pos + sz])
        invariant out.log == old(out.log) + Shown(out.hidden, records)
      {
        OneByte(before, bytes, records, buf[..pos], buf[pos..pos + sz]);
        ghost var record;
        record := Look(sz, out);
        LogGrows(out.hidden, old(out.log), records, record);
        assert records + [] == records;
        records := records + record;
        sz := sz - 1;
      }
      assert buf[pos..pos + 0] == [];
    }

    /** One read, and the records it completes. A full buffer is written as it is. */
    method ReadOnce(pipe: Pipe, out: Output) returns (n: nat, ghost records: seq<seq<Byte>>)
      requires Valid()
      modifies `pos, buf, pipe, out`log
      ensures Valid() && n <= |old(pipe.data)| && pipe.data == old(pipe.data)[n..]
      ensures n > 0 ==> |pipe.offers| < |old(pipe.offers)|
      ensures Feed(old(Pending()), old(pipe.data)[..n]) == Cut(records, Pending())
      ensures out.log == old(out.log) + Shown(out.hidden, records)
    {
      hide Shown, Feed;
      ghost var before, data := Pending(), pipe.data;
      n := pipe.Read(buf, pos, CAPACITY - pos);
      assert buf[..pos] == before && buf[pos..pos + n] == data[..n];
      records := Scan(n, out);
      Landed(before, data[..n], records, buf[..pos]);
      if pos >= CAPACITY {
        ghost var record := buf[..pos];
        out.Write(buf, CAPACITY);
        ShownSplit(out.hidden, records, [record]);
        records := records + [record];
        pos := 0;
        assert buf[..0] == [];
      }
    }

    /** Reads until nothing comes. */
    method ReadPipe(pipe: Pipe, out: Output) returns (ghost n: nat, ghost records: seq<seq<Byte>>)
      requires Valid()
      modifies `pos, buf, pipe, out`log
      ensures Valid() && n <= |old(pipe.data)| && pipe.data == old(pipe.data)[n..]
      ensures Feed(old(Pending()), old(pipe.data)[..n]) == Cut(records, Pending())
      ensures out.log == old(out.log) + Shown(out.hidden, records)
    {
      hide Shown, Feed;
      ghost var before, data := Pending(), pipe.data;
      n, records := 0, [];
      ShownNone(out.hidden);
      FeedNothing(before);
      assert data[..0] == [] && data[0..] == data;
      while true
        invariant Valid() && n <= |data| && pipe.data == data[n..]
        invariant Feed(before, data[..n]) == Cut(records, Pending())
        invariant out.log == old(out.log) + Shown(out.hidden, records)
        decreases |pipe.offers|
      {
        ghost var pending := Pending();
        var sz;
        ghost var more;
        sz, more := ReadOnce(pipe, out);
        FeedSplit(before, data[..n], data[n..][..sz]);
        ShownSplit(out.hidden, records, more);
        assert data[..n] + data[n..][..sz] == data[..n + sz] && data[n..][sz..] == data[n + sz..];
        n, records := n + sz, records + more;
        if sz == 0 {
          break;
        }
      }
    }
  }

  lemma {:induction false} Landed(before: seq<Byte>, bytes: seq<Byte>, records: seq<seq<Byte>>, q: seq<Byte>)
    requires Progress(before, bytes, records, q, [])
    ensures Feed(before, bytes) == if |q| == CAPACITY then Cut(records + [q], []) else Cut(records, q)
  {
    assert records + [] == records;
  }

  lemma {:induction false} FeedNothing(p: seq<Byte>)
    ensures Feed(p, []) == Cut([], p)
  {
  }

  /** What was read before can be read apart: the records do not depend on how the stream is
      split into reads, or the reads into calls. */
  lemma {:induction false} FeedSplit(p: seq<Byte>, a: seq<Byte>, b: seq<Byte>)
    ensures Feed(p, a + b) == Join(Feed(p, a).records, Feed(Feed(p, a).pending, b))
    decreases |a|
  {
    if a == [] {
      assert a + b == b;
      assert [] + Feed(p, b).records == Feed(p, b).records;
    } else {
      assert (a + b)[1..] == a[1..] + b;
      var q := p + [a[0]];
      if Complete(q) {
        FeedSplit([], a[1..], b);
        var c := Feed([], a[1..]);
        var d := Feed(c.pending, b);
        assert [q] + (c.records + d.records) == [q] + c.records + d.records;
      } else {
        FeedSplit(q, a[1..], b);
      }
    }
  }

  lemma {:induction false} ShownNone(hidden: seq<Byte> -> bool)
    ensures Shown(hidden, []) == []
  {
  }

  // ------------------------------------------------------------------
  //  What the records are
  // ------------------------------------------------------------------

  lemma {:induction false} FlattenCons(r: seq<Byte>, records: seq<seq<Byte>>)
    ensures Flatten([r] + records) == r + Flatten(records)
  {
    assert ([r] + records)[1..] == records;
  }

  /** No byte is lost, added or moved. */
  lemma {:induction false} NothingLost(p: seq<Byte>, bytes: seq<Byte>)
    ensures var c := Feed(p, bytes); Flatten(c.records) + c.pending == p + bytes
    decreases |bytes|
  {
    if bytes == [] {
      assert [] + p == p + [];
    } else {
      var q := p + [bytes[0]];
      assert q + bytes[1..] == p + bytes;
      if Complete(q) {
        NothingLost([], bytes[1..]);
        var c := Feed([], bytes[1..]);
        FlattenCons(q, c.records);
        assert q + Flatten(c.records) + c.pending == q + (Flatten(c.records) + c.pending);
        assert [] + bytes[1..] == bytes[1..];
      } else {
        NothingLost(q, bytes[1..]);
      }
    }
  }

  /** A prefix of a record is not a record. */
  predicate Open(p: seq<Byte>) {
    |p| < CAPACITY && NEWLINE !in p
  }

  /** A record is cut at its first newline, or at a full buffer without one. */
  predicate IsRecord(r: seq<Byte>) {
    r != [] && Complete(r) && Open(r[..|r| - 1])
  }

  predicate AllRecords(records: seq<seq<Byte>>) {
    forall i :: 0 <= i < |records| ==> IsRecord(records[i])
  }

  lemma {:induction false} CutWell(p: seq<Byte>, bytes: seq<Byte>)
    requires Open(p)
    ensures var c := Feed(p, bytes); AllRecords(c.records) && Open(c.pending)
    decreases |bytes|
  {
    if bytes != [] {
      var q := p + [bytes[0]];
      assert q[..|q| - 1] == p;
      if Complete(q) {
        CutWell([], bytes[1..]);
      } else {
        CutWell(q, bytes[1..]);
      }
    }
  }

  /** Reading the rest of a record. */
  lemma {:induction false} FeedRecord(p: seq<Byte>, r: seq<Byte>, more: seq<Byte>)
    requires r != [] && IsRecord(p + r)
    ensures Feed(p, r + more) == Join([p + r], Feed([], more))
    decreases |r|
  {
    var q := p + [r[0]];
    assert (r + more)[1..] == r[1..] + more;
    if |r| == 1 {
      assert q == p + r && r[1..] + more == more;
    } else {
      assert q == (p + r)[..|p + r| - 1][..|q|];
      assert (p + r)[..|p + r| - 1][|p|] == r[0];
      assert p + r == q + r[1..];
      FeedRecord(q, r[1..], more);
    }
  }

  lemma {:induction false} FeedOpen(p: seq<Byte>, r: seq<Byte>)
    requires Open(p + r)
    ensures Feed(p, r) == Cut([], p + r)
    decreases |r|
  {
    if r == [] {
      assert p + r == p;
    } else {
      var q := p + [r[0]];
      assert q + r[1..] == p + r;
      assert (p + r)[|p|] == r[0];
      FeedOpen(q, r[1..]);
    }
  }

  /** There is only one way to cut a stream: records, then the beginning of one. */
  lemma {:induction false} OnlyOneCut(records: seq<seq<Byte>>, pending: seq<Byte>)
    requires AllRecords(records) && Open(pending)
    ensures Feed([], Flatten(records) + pending) == Cut(records, pending)
  {
    if records == [] {
      assert [] + pending == pending;
      FeedOpen([], pending);
    } else {
      var r, more := records[0], Flatten(records[1..]) + pending;
      assert Flatten(records) + pending == r + more;
      assert [] + r == r;
      FeedRecord([], r, more);
      OnlyOneCut(records[1..], pending);
      assert [r] + records[1..] == records;
    }
  }
}

