/**
 * The control plane's key-value store: a map in memory and an append-only, newline-framed
 * log of the operations that built it.
 *
 * The log is modelled down to its bytes.  The record encoding is a parameter; `ValidCodec`
 * states what is used of it, and module JsonCodec gives an encoding that satisfies it.
 * Keys are text, so a key always survives encoding.
 */
module Wal {
  import opened Types

  const LF: byte := 10
  const CR: byte := 13

  /** bufio.Scanner's default buffer: a line must leave room for one more byte. */
  const MAX_TOKEN_SIZE: nat := 65536

  datatype Record<V> = Put(key: string, value: V) | Delete(key: string) | UnknownOp

  datatype Codec<!V> = Codec(
    encode: Record<V> -> seq<byte>,
    decode: seq<byte> -> Option<Record<V>>)

  /** A non-empty beginning of an encoding, or all of it. */
  ghost predicate IsPiece<V(!new)>(c: Codec<V>, p: seq<byte>) {
    exists r: Record<V>, k :: !r.UnknownOp? && 0 < k <= |c.encode(r)| && p == c.encode(r)[..k]
  }

  ghost predicate Pieces<V(!new)>(c: Codec<V>, ps: seq<seq<byte>>) {
    forall i :: 0 <= i < |ps| ==> IsPiece(c, ps[i])
  }

  /**
   * The encoding round-trips, fits on a line, and neither a proper prefix of an encoding nor
   * several pieces of encodings run together decode.
   */
  ghost predicate ValidCodec<V(!new)>(c: Codec<V>) {
    && (forall r: Record<V> :: !r.UnknownOp? ==> c.decode(c.encode(r)) == Some(r))
    && (forall r: Record<V>, i :: 0 <= i < |c.encode(r)| ==> c.encode(r)[i] != LF && c.encode(r)[i] != CR)
    && c.decode([]) == None
    && (forall r: Record<V>, k :: !r.UnknownOp? && 0 < k < |c.encode(r)| ==> c.decode(c.encode(r)[..k]) == None)
    && (forall ps :: |ps| >= 2 && Pieces(c, ps) ==> c.decode(Concat(ps)) == None)
  }

  // ----- Reading the log -----

  /** Position of the first LF, or the length. */
  function LineEnd(b: seq<byte>): (i: nat)
    ensures i <= |b| && (i < |b| ==> b[i] == LF)
    ensures forall j :: 0 <= j < i ==> b[j] != LF
  {
    if b == [] || b[0] == LF then 0 else 1 + LineEnd(b[1..])
  }

  /** The lines a scanner yields; a last line without LF counts unless empty. */
  function Lines(b: seq<byte>): seq<seq<byte>>
    decreases |b|
  {
    if b == [] then []
    else
      var i := LineEnd(b);
      if i == |b| then [b] else [b[..i]] + Lines(b[i + 1..])
  }

  function DropCR(line: seq<byte>): seq<byte> {
    if line != [] && line[|line| - 1] == CR then line[..|line| - 1] else line
  }

  function Apply<V>(m: map<string, V>, r: Record<V>): map<string, V> {
    match r
    case Put(k, v) => m[k := v]
    case Delete(k) => m - {k}
    case UnknownOp => m
  }

  function ReplayLine<V>(c: Codec<V>, line: seq<byte>, m: map<string, V>): Result<map<string, V>> {
    if |line| >= MAX_TOKEN_SIZE then Err
    else match c.decode(DropCR(line))
      case None => Err
      case Some(UnknownOp) => Err
      case Some(r) => Ok(Apply(m, r))
  }

  function ReplayLines<V>(c: Codec<V>, lines: seq<seq<byte>>, m: map<string, V>): Result<map<string, V>> {
    if lines == [] then Ok(m)
    else
      var r := ReplayLine(c, lines[0], m);
      if r.Err? then Err else ReplayLines(c, lines[1..], r.value)
  }

  /** The map a store starts with when the log file holds `b`. */
  function Replay<V>(c: Codec<V>, b: seq<byte>): Result<map<string, V>> {
    ReplayLines(c, Lines(b), map[])
  }

  // ----- Writing the log -----

  function Framed<V>(c: Codec<V>, r: Record<V>): seq<byte> {
    c.encode(r) + [LF]
  }

  function Frame<V>(c: Codec<V>, h: seq<Record<V>>): seq<byte> {
    if h == [] then [] else Framed(c, h[0]) + Frame(c, h[1..])
  }

  function Fold<V>(h: seq<Record<V>>, m: map<string, V>): map<string, V> {
    if h == [] then m else Fold(h[1..], Apply(m, h[0]))
  }

  /** Puts and deletes are the only records ever written. */
  ghost predicate Writable<V>(h: seq<Record<V>>) {
    forall i :: 0 <= i < |h| ==> !h[i].UnknownOp?
  }

  predicate Fits<V>(c: Codec<V>, r: Record<V>) {
    |c.encode(r)| < MAX_TOKEN_SIZE
  }

  ghost predicate AllFit<V>(c: Codec<V>, h: seq<Record<V>>) {
    forall i :: 0 <= i < |h| ==> Fits(c, h[i])
  }

  lemma {:induction false} FrameAppend<V>(c: Codec<V>, h: seq<Record<V>>, r: Record<V>)
    ensures Frame(c, h + [r]) == Frame(c, h) + Framed(c, r)
  {
    if h == [] {
      assert [r][1..] == [];
      assert h + [r] == [r];
    } else {
      assert (h + [r])[1..] == h[1..] + [r];
      FrameAppend(c, h[1..], r);
    }
  }

  lemma {:induction false} FoldAppend<V>(h: seq<Record<V>>, r: Record<V>, m: map<string, V>)
    ensures Fold(h + [r], m) == Apply(Fold(h, m), r)
  {
    if h == [] {
      assert h + [r] == [r];
      assert Fold([r], m) == Fold([r][1..], Apply(m, r));
    } else {
      assert (h + [r])[1..] == h[1..] + [r];
      FoldAppend(h[1..], r, Apply(m, h[0]));
    }
  }

  // ----- Replaying what was written -----

  lemma {:induction false} LineEndAfter(a: seq<byte>, rest: seq<byte>)
    requires forall i :: 0 <= i < |a| ==> a[i] != LF
    requires rest != [] ==> rest[0] == LF
    ensures LineEnd(a + rest) == |a|
  {
    var b := a + rest;
    assert forall j :: 0 <= j < |a| ==> b[j] == a[j];
    assert rest != [] ==> b[|a|] == rest[0];
  }

  lemma {:induction false} FirstLine<V(!new)>(c: Codec<V>, r: Record<V>, rest: seq<byte>)
    requires ValidCodec(c) && !r.UnknownOp?
    ensures Lines(Framed(c, r) + rest) == [c.encode(r)] + Lines(rest)
  {
    var e := c.encode(r);
    var b := Framed(c, r) + rest;
    assert b == e + ([LF] + rest);
    LineEndAfter(e, [LF] + rest);
    assert b[..|e|] == e;
    assert b[|e| + 1..] == rest;
  }

  lemma {:induction false} ReplayOwnLine<V(!new)>(c: Codec<V>, r: Record<V>, m: map<string, V>)
    requires ValidCodec(c) && !r.UnknownOp?
    ensures ReplayLine(c, c.encode(r), m) == if Fits(c, r) then Ok(Apply(m, r)) else Err
  {
    assert DropCR(c.encode(r)) == c.encode(r);
  }

  /** Replaying written records and then anything else. */
  lemma {:induction false} ReplayWritten<V(!new)>(c: Codec<V>, h: seq<Record<V>>, tail: seq<byte>, m: map<string, V>)
    requires ValidCodec(c) && Writable(h)
    ensures ReplayLines(c, Lines(Frame(c, h) + tail), m)
         == if AllFit(c, h) then ReplayLines(c, Lines(tail), Fold(h, m)) else Err
  {
    if h == [] {
      assert Frame(c, h) + tail == tail;
    } else {
      var rest := Frame(c, h[1..]) + tail;
      assert Frame(c, h) + tail == Framed(c, h[0]) + rest;
      FirstLine(c, h[0], rest);
      var lines := Lines(Frame(c, h) + tail);
      assert lines[1..] == Lines(rest);
      ReplayOwnLine(c, h[0], m);
      ReplayWritten(c, h[1..], tail, Apply(m, h[0]));
      assert AllFit(c, h) <==> Fits(c, h[0]) && AllFit(c, h[1..]);
    }
  }

  /** Reopening an intact log restores the map exactly, if and only if every line fits the scanner. */
  lemma {:induction false} ReopenRestores<V(!new)>(c: Codec<V>, h: seq<Record<V>>)
    requires ValidCodec(c) && Writable(h)
    ensures Replay(c, Frame(c, h)) == if AllFit(c, h) then Ok(Fold(h, map[])) else Err
  {
    assert Frame(c, h) + [] == Frame(c, h);
    ReplayWritten(c, h, [], map[]);
  }

  // ----- In bytes -----

  lemma {:induction false} OneLine<V>(c: Codec<V>, line: seq<byte>, end: seq<byte>)
    requires line != [] && forall i :: 0 <= i < |line| ==> line[i] != LF
    requires end == [] || end == [LF]
    ensures Replay(c, line + end) == ReplayLine(c, line, map[])
  {
    var b := line + end;
    LineEndAfter(line, end);
    assert b[..|line|] == line;
    if end == [] {
      assert b == line;
    } else {
      assert b[|line| + 1..] == [];
    }
    assert Lines(b) == [line];
    OnlyLine(c, line);
  }

  lemma {:induction false} OnlyLine<V>(c: Codec<V>, line: seq<byte>)
    ensures ReplayLines(c, [line], map[]) == ReplayLine(c, line, map[])
  {
    var lines := [line];
    assert lines[1..] == [];
    var r := ReplayLine(c, line, map[]);
    if r.Ok? {
      assert ReplayLines(c, lines[1..], r.value) == Ok(r.value);
    }
  }

  /**
   * A log of one record: it opens exactly if the record's bytes - with the CR, if the line ends in
   * CR LF - are fewer than 65536, with or without a final LF, and then holds just what the record says.
   */
  lemma {:induction false} OneRecordReplays<V(!new)>(c: Codec<V>, r: Record<V>)
    requires ValidCodec(c) && !r.UnknownOp?
    ensures var e := c.encode(r);
            var m: map<string, V> := if r.Put? then map[r.key := r.value] else map[];
            && Framed(c, r) == e + [10]
            && Replay(c, e + [10]) == (if |e| < 65536 then Ok(m) else Err)
            && Replay(c, e) == (if |e| < 65536 then Ok(m) else Err)
            && Replay(c, e + [13] + [10]) == (if |e| + 1 < 65536 then Ok(m) else Err)
  {
    var e := c.encode(r);
    assert e != [] && e + [] == e;
    OneLine(c, e, [LF]);
    OneLine(c, e, []);
    OneLine(c, e + [CR], [LF]);
    assert DropCR(e) == e;
    assert (e + [CR])[..|e|] == e;
  }

  /** A log of whole records opens exactly if each has fewer than 65536 bytes. */
  lemma {:induction false} ShortRecordsReopen<V(!new)>(c: Codec<V>, h: seq<Record<V>>)
    requires ValidCodec(c) && Writable(h)
    ensures Replay(c, Frame(c, h)).Ok? <==> forall i :: 0 <= i < |h| ==> |c.encode(h[i])| < 65536
  {
    ReopenRestores(c, h);
    assert forall i :: 0 <= i < |h| ==> (Fits(c, h[i]) <==> |c.encode(h[i])| < 65536);
  }

  /** A line that does not decode, or is no known operation, stops the log from opening. */
  lemma {:induction false} BadRecordStops<V(!new)>(c: Codec<V>, h: seq<Record<V>>, line: seq<byte>, tail: seq<byte>)
    requires ValidCodec(c) && Writable(h) && forall i :: 0 <= i < |line| ==> line[i] != LF && line[i] != CR
    requires c.decode(line) == None || c.decode(line) == Some(UnknownOp)
    ensures Replay(c, Frame(c, h) + (line + ([10] + tail))) == Err
  {
    var rest := line + ([LF] + tail);
    ReplayWritten(c, h, rest, map[]);
    LineEndAfter(line, [LF] + tail);
    assert rest[..|line|] == line;
    assert Lines(rest)[0] == line;
    assert DropCR(line) == line;
  }

  // ----- Crashes -----

  /**
   * The process dies after `cut` bytes of the last append reached the file.  Reopening gives
   * the map without the operation if none did, with it if its whole encoding did, and an
   * error in between; an earlier operation is never lost.  Any line too long for the scanner
   * makes it an error.
   */
  lemma {:induction false} CrashAtAnyByte<V(!new)>(c: Codec<V>, h: seq<Record<V>>, r: Record<V>, cut: nat)
    requires ValidCodec(c) && Writable(h + [r])
    requires cut <= |Framed(c, r)|
    ensures Replay(c, Frame(c, h) + Framed(c, r)[..cut])
         == if !AllFit(c, h) then Err
            else if cut == 0 then Ok(Fold(h, map[]))
            else if cut < |c.encode(r)| || !Fits(c, r) then Err
            else Ok(Apply(Fold(h, map[]), r))
  {
    assert (h + [r])[|h|] == r;
    WritablePrefix(h, [r]);
    ReplayWritten(c, h, Framed(c, r)[..cut], map[]);
    TornLine(c, r, cut, Fold(h, map[]));
  }

  lemma {:induction false} WritablePrefix<V>(h: seq<Record<V>>, more: seq<Record<V>>)
    requires Writable(h + more)
    ensures Writable(h)
  {
    forall i | 0 <= i < |h| ensures !h[i].UnknownOp? {
      assert h[i] == (h + more)[i];
    }
  }

  lemma {:induction false} TornLine<V(!new)>(c: Codec<V>, r: Record<V>, cut: nat, m: map<string, V>)
    requires ValidCodec(c) && !r.UnknownOp? && cut <= |Framed(c, r)|
    ensures ReplayLines(c, Lines(Framed(c, r)[..cut]), m)
         == if cut == 0 then Ok(m)
            else if cut < |c.encode(r)| || !Fits(c, r) then Err
            else Ok(Apply(m, r))
  {
    var e, tail := c.encode(r), Framed(c, r)[..cut];
    assert e != [];
    if cut == 0 {
    } else if cut <= |e| {
      assert tail == e[..cut];
      LineEndAfter(tail, []);
      assert tail + [] == tail;
      assert Lines(tail) == [tail];
      assert DropCR(tail) == tail;
      assert |Lines(tail)[1..]| == 0;
      if cut == |e| {
        assert tail == e;
      }
    } else {
      assert tail == Framed(c, r) + [];
      FirstLine(c, r, []);
      ReplayOwnLine(c, r, m);
      assert |Lines(tail)[1..]| == 0;
    }
  }

  /** A line that does not decode makes the whole log unreadable. */
  lemma {:induction false} BadLineFails<V(!new)>(c: Codec<V>, h: seq<Record<V>>, line: seq<byte>, end: seq<byte>)
    requires ValidCodec(c) && Writable(h) && line != [] && c.decode(line) == None
    requires forall i :: 0 <= i < |line| ==> line[i] != LF && line[i] != CR
    requires end != [] ==> end[0] == LF
    ensures Replay(c, Frame(c, h) + (line + end)) == Err
  {
    ReplayWritten(c, h, line + end, map[]);
    LineEndAfter(line, end);
    assert (line + end)[..|line|] == line;
    assert Lines(line + end)[0] == line;
    assert DropCR(line) == line;
  }

  lemma {:induction false} PieceOf<V(!new)>(c: Codec<V>, r: Record<V>, k: nat)
    requires ValidCodec(c) && !r.UnknownOp? && 0 < k <= |c.encode(r)|
    ensures IsPiece(c, c.encode(r)[..k])
    ensures c.encode(r)[..|c.encode(r)|] == c.encode(r) && IsPiece(c, c.encode(r))
  {
    var e := c.encode(r);
    assert e[..|e|] == e && 0 < |e| <= |e|;
  }

  lemma {:induction false} PiecesOnOneLine<V(!new)>(c: Codec<V>, ps: seq<seq<byte>>)
    requires ValidCodec(c) && Pieces(c, ps)
    ensures forall i :: 0 <= i < |Concat(ps)| ==> Concat(ps)[i] != LF && Concat(ps)[i] != CR
    ensures ps != [] ==> Concat(ps) != []
  {
    if ps == [] {
    } else {
      var rest, p := ps[..|ps| - 1], ps[|ps| - 1];
      PiecesOnOneLine(c, rest);
      assert IsPiece(c, p);
    }
  }

  /** A line of pieces that is not one whole record makes the log unreadable, whatever follows. */
  lemma {:induction false} PiecesFail<V(!new)>(
      c: Codec<V>, h: seq<Record<V>>, ps: seq<seq<byte>>, end: seq<byte>)
    requires ValidCodec(c) && Writable(h) && Pieces(c, ps) && ps != [] && c.decode(Concat(ps)) == None
    requires end != [] ==> end[0] == LF
    ensures Replay(c, Frame(c, h) + (Concat(ps) + end)) == Err
  {
    PiecesOnOneLine(c, ps);
    BadLineFails(c, h, Concat(ps), end);
  }

  lemma {:induction false} ConcatTwo(a: Bytes, b: Bytes)
    ensures Concat([a, b]) == a + b && Concat([a]) == a
  {
    var one, two: seq<Bytes> := [a], [a, b];
    assert two[..1] == one && one[..0] == [];
    assert Concat(one) == Concat([]) + a;
  }

  lemma {:induction false} Regroup(a: Bytes, b: Bytes, p: Bytes, q: Bytes)
    ensures (a + b) + (p + q) == a + ((b + p) + q)
  {
  }

  lemma {:induction false} RegroupTail(a: Bytes, b: Bytes, p: Bytes, q: Bytes)
    ensures (a + (b + p)) + q == a + (b + (p + q))
  {
  }

  /**
   * If only the LF of a record was lost, reopening succeeds but the log no longer ends a line:
   * once the next operation has been appended, every later open fails.
   */
  lemma {:induction false} AppendAfterTornNewline<V(!new)>(
      c: Codec<V>, h: seq<Record<V>>, r: Record<V>, next: Record<V>, tail: seq<byte>)
    requires ValidCodec(c) && Writable(h) && !r.UnknownOp? && !next.UnknownOp?
    ensures Replay(c, Frame(c, h) + c.encode(r) + Framed(c, next) + tail) == Err
  {
    var ps := [c.encode(r), c.encode(next)];
    assert c.encode(r) != [] && c.encode(next) != [];
    PieceOf(c, r, 1);
    PieceOf(c, next, 1);
    ConcatTwo(c.encode(r), c.encode(next));
    PiecesFail(c, h, ps, [LF] + tail);
    Regroup(Frame(c, h), c.encode(r), c.encode(next), [LF]);
    RegroupTail(Frame(c, h), c.encode(r) + c.encode(next), [LF], tail);
  }

  /** Whole records, and then more of them. */
  lemma {:induction false} AppendToWhole<V(!new)>(c: Codec<V>, h: seq<Record<V>>, more: seq<Record<V>>)
    requires ValidCodec(c) && Writable(h) && Writable(more)
    ensures Replay(c, Frame(c, h) + Frame(c, more))
         == if AllFit(c, h + more) then Ok(Fold(h + more, map[])) else Err
  {
    FrameConcat(c, h, more);
    ReopenRestores(c, h + more);
  }

  /** A record without its LF, and then more records. */
  lemma {:induction false} AppendToTorn<V(!new)>(
      c: Codec<V>, h: seq<Record<V>>, r: Record<V>, more: seq<Record<V>>)
    requires ValidCodec(c) && Writable(h) && !r.UnknownOp? && Writable(more) && more != []
    ensures Replay(c, Frame(c, h) + c.encode(r) + Frame(c, more)) == Err
  {
    AppendAfterTornNewline(c, h, r, more[0], Frame(c, more[1..]));
    assert Frame(c, h) + c.encode(r) + Frame(c, more)
        == Frame(c, h) + c.encode(r) + Framed(c, more[0]) + Frame(c, more[1..]);
  }

  /**
   * A crash whose reopen succeeds, and then more appended operations: the log reads back, as the
   * records that survived and the new ones, unless the crash lost exactly the LF.
   */
  lemma {:induction false} AppendAfterCrash<V(!new)>(
      c: Codec<V>, h: seq<Record<V>>, r: Record<V>, cut: nat, more: seq<Record<V>>)
    requires ValidCodec(c) && Writable(h) && !r.UnknownOp? && Writable(more) && more != []
    requires cut == 0 || |c.encode(r)| <= cut <= |Framed(c, r)|
    ensures var kept := if cut == 0 then h + more else h + [r] + more;
            Replay(c, Frame(c, h) + Framed(c, r)[..cut] + Frame(c, more))
            == if cut == |c.encode(r)| || !AllFit(c, kept) then Err else Ok(Fold(kept, map[]))
  {
    assert c.encode(r) != [];
    if cut == |c.encode(r)| {
      assert Framed(c, r)[..cut] == c.encode(r);
      AppendToTorn(c, h, r, more);
    } else if cut == 0 {
      assert Frame(c, h) + Framed(c, r)[..0] == Frame(c, h);
      AppendToWhole(c, h, more);
    } else {
      assert Framed(c, r)[..cut] == Framed(c, r);
      FrameAppend(c, h, r);
      AppendToWhole(c, h + [r], more);
    }
  }

  lemma {:induction false} FrameConcat<V>(c: Codec<V>, h: seq<Record<V>>, more: seq<Record<V>>)
    ensures Frame(c, h + more) == Frame(c, h) + Frame(c, more)
  {
    if h == [] {
      assert h + more == more;
    } else {
      assert (h + more)[1..] == h[1..] + more;
      FrameConcat(c, h[1..], more);
    }
  }

  /** The operation would change nothing: the value is already there, or the key already gone. */
  ghost predicate Redundant<V>(m: map<string, V>, r: Record<V>) {
    match r
    case Put(k, v) => k in m && m[k] == v
    case Delete(k) => k !in m
    case UnknownOp => true
  }

  /**
   * An append whose Sync fails leaves the record in the log but not in the map: the two agree
   * again exactly when the operation would not have changed the map.
   */
  lemma {:induction false} SyncFailureDisagrees<V(!new)>(c: Codec<V>, h: seq<Record<V>>, r: Record<V>)
    requires ValidCodec(c) && Writable(h + [r])
    ensures Replay(c, Frame(c, h) + Framed(c, r)) == Ok(Fold(h, map[]))
            <==> AllFit(c, h) && Fits(c, r) && Redundant(Fold(h, map[]), r)
  {
    var m := Fold(h, map[]);
    assert Framed(c, r)[..|Framed(c, r)|] == Framed(c, r);
    CrashAtAnyByte(c, h, r, |Framed(c, r)|);
    assert r == (h + [r])[|h|];
    if r.Put? {
      assert m[r.key := r.value] == m <==> r.key in m && m[r.key] == r.value;
    } else {
      assert m - {r.key} == m <==> r.key !in m;
    }
  }

  // ----- Whole runs -----

  datatype Write<V> = WritePut(key: string, value: V) | WriteDelete(key: string)

  /**
   * `Fail` is a write whose append reports an error after `cut` bytes of its line reached the file;
   * `Crash` is one cut off there, and then a restart.
   */
  datatype Op<V> =
    | Do(write: Write<V>)
    | Fail(write: Write<V>, cut: nat)
    | Restart
    | Crash(write: Write<V>, cut: nat)

  datatype State<V> = State(wal: seq<byte>, data: map<string, V>)

  /** The record a write appends: none for an empty key, which is refused. */
  function RecordOf<V>(w: Write<V>): (r: Option<Record<V>>)
    ensures r.Some? ==> !r.value.UnknownOp?
  {
    if w.key == "" then None
    else match w
      case WritePut(k, v) => Some(Put(k, v))
      case WriteDelete(k) => Some(Delete(k))
  }

  function Reopen<V>(c: Codec<V>, wal: seq<byte>): Result<State<V>> {
    var m := Replay(c, wal);
    if m.Err? then Err else Ok(State(wal, m.value))
  }

  function Min(a: nat, b: nat): nat {
    if a < b then a else b
  }

  /** The bytes of the write's line that reach the file if it is cut off. */
  function Remains<V>(c: Codec<V>, w: Write<V>, cut: nat): seq<byte> {
    var r := RecordOf(w);
    if r.None? then [] else Framed(c, r.value)[..Min(cut, |Framed(c, r.value)|)]
  }

  function Step<V>(c: Codec<V>, s: State<V>, op: Op<V>): Result<State<V>> {
    match op
    case Do(w) =>
      var r := RecordOf(w);
      if r.None? then Ok(s) else Ok(State(s.wal + Framed(c, r.value), Apply(s.data, r.value)))
    case Fail(w, cut) => Ok(s.(wal := s.wal + Remains(c, w, cut)))
    case Restart => Reopen(c, s.wal)
    case Crash(w, cut) => Reopen(c, s.wal + Remains(c, w, cut))
  }

  /** The store after a run, starting from no file. */
  function Run<V>(c: Codec<V>, ops: seq<Op<V>>): Result<State<V>> {
    if ops == [] then Ok(State([], map[]))
    else
      var s := Run(c, ops[..|ops| - 1]);
      if s.Err? then Err else Step(c, s.value, ops[|ops| - 1])
  }

  predicate Reopens<V>(op: Op<V>) {
    op.Restart? || op.Crash?
  }

  /** The record the operation appends, and how many bytes of its line it leaves in the file. */
  function Appended<V>(c: Codec<V>, op: Op<V>): (r: Option<(Record<V>, nat)>)
    ensures r.Some? ==> !r.value.0.UnknownOp? && r.value.1 <= |Framed(c, r.value.0)|
  {
    if op.Restart? || RecordOf(op.write).None? then None
    else
      var r := RecordOf(op.write).value;
      Some((r, if op.Do? then |Framed(c, r)| else Min(op.cut, |Framed(c, r)|)))
  }

  /** The write whose whole record the operation leaves in the file, if any. */
  function Effective<V>(c: Codec<V>, op: Op<V>): (r: Option<Record<V>>)
    ensures r.Some? ==> !r.value.UnknownOp?
  {
    var a := Appended(c, op);
    if a.Some? && a.value.1 >= |c.encode(a.value.0)| then Some(a.value.0) else None
  }

  /** The whole records the run has put in the file. */
  ghost function Written<V>(c: Codec<V>, ops: seq<Op<V>>): (h: seq<Record<V>>)
    ensures Writable(h)
  {
    if ops == [] then []
    else
      var h := Written(c, ops[..|ops| - 1]);
      var r := Effective(c, ops[|ops| - 1]);
      if r.Some? then h + [r.value] else h
  }

  /** The same run on a plain map, for which a restart is nothing and a write is done or not. */
  function PlainRun<V>(c: Codec<V>, ops: seq<Op<V>>): map<string, V> {
    if ops == [] then map[]
    else
      var m := PlainRun(c, ops[..|ops| - 1]);
      var r := Effective(c, ops[|ops| - 1]);
      if r.Some? then Apply(m, r.value) else m
  }

  /**
   * What the store answers from: the plain map as of the last restart, and the writes acknowledged
   * since.
   */
  function Memory<V>(c: Codec<V>, ops: seq<Op<V>>): map<string, V> {
    if ops == [] then map[]
    else
      var m, op := Memory(c, ops[..|ops| - 1]), ops[|ops| - 1];
      if Reopens(op) then PlainRun(c, ops)
      else if op.Do? && RecordOf(op.write).Some? then Apply(m, RecordOf(op.write).value)
      else m
  }

  /** The operation reports an error although its whole record reached the file. */
  predicate Hides<V>(c: Codec<V>, op: Op<V>) {
    op.Fail? && Effective(c, op).Some?
  }

  /** No write since the last restart has reported an error with its whole record in the file. */
  predicate NothingHidden<V>(c: Codec<V>, ops: seq<Op<V>>) {
    ops == [] || Reopens(ops[|ops| - 1])
    || (!Hides(c, ops[|ops| - 1]) && NothingHidden(c, ops[..|ops| - 1]))
  }

  /** How the file ends: after an LF, after a record without its LF, or with an unreadable line somewhere. */
  datatype Ending = Closed | Unterminated | Broken

  function EndAfter<V>(c: Codec<V>, e: Ending, op: Op<V>): Ending {
    var a := Appended(c, op);
    if a.None? || a.value.1 == 0 then e
    else if e != Closed then Broken
    else if a.value.1 == |Framed(c, a.value.0)| then Closed
    else if a.value.1 == |c.encode(a.value.0)| then Unterminated
    else Broken
  }

  function EndingOf<V>(c: Codec<V>, ops: seq<Op<V>>): Ending {
    if ops == [] then Closed else EndAfter(c, EndingOf(c, ops[..|ops| - 1]), ops[|ops| - 1])
  }

  /**
   * Whenever the store is opened, no write has been cut inside its record or appended to a line left
   * open, and every record in the file fits the scanner.
   */
  ghost predicate Recoverable<V>(c: Codec<V>, ops: seq<Op<V>>) {
    ops == [] ||
    (&& Recoverable(c, ops[..|ops| - 1])
     && (Reopens(ops[|ops| - 1]) ==> EndingOf(c, ops) != Broken && AllFit(c, Written(c, ops))))
  }

  // ----- The bytes of the file -----

  /** The log holds a line of pieces that does not decode, the last line if `end` is empty. */
  ghost predicate IsBroken<V(!new)>(
      c: Codec<V>, g: seq<Record<V>>, ps: seq<seq<byte>>, end: seq<byte>, wal: seq<byte>)
  {
    && Writable(g) && Pieces(c, ps) && ps != [] && c.decode(Concat(ps)) == None
    && (end != [] ==> end[0] == LF)
    && wal == Frame(c, g) + (Concat(ps) + end)
  }

  /** The bytes of the file, as far as the run so far fixes them. */
  ghost predicate LogOf<V(!new)>(c: Codec<V>, h: seq<Record<V>>, e: Ending, wal: seq<byte>) {
    match e
    case Closed => wal == Frame(c, h)
    case Unterminated => h != [] && wal == Frame(c, h[..|h| - 1]) + c.encode(h[|h| - 1])
    case Broken => exists g, ps, end :: IsBroken(c, g, ps, end, wal)
  }

  /** A piece appended to an open line of pieces leaves a line that does not decode. */
  lemma {:induction false} OneMorePiece<V(!new)>(c: Codec<V>, ps: seq<seq<byte>>, p: seq<byte>)
    requires ValidCodec(c) && Pieces(c, ps) && ps != [] && IsPiece(c, p)
    ensures Pieces(c, ps + [p]) && Concat(ps + [p]) == Concat(ps) + p && c.decode(Concat(ps + [p])) == None
  {
    ConcatOneMore(ps, p);
  }

  /** What is appended is a piece and perhaps the LF. */
  lemma {:induction false} LineParts<V(!new)>(c: Codec<V>, r: Record<V>, n: nat)
    requires ValidCodec(c) && !r.UnknownOp? && 0 < n <= |Framed(c, r)|
    ensures var k := Min(n, |c.encode(r)|);
            && k > 0 && IsPiece(c, c.encode(r)[..k])
            && Framed(c, r)[..n] == c.encode(r)[..k] + (if n == |Framed(c, r)| then [LF] else [])
  {
    assert c.encode(r) != [];
    PieceOf(c, r, Min(n, |c.encode(r)|));
  }

  lemma {:induction false} BrokenStays<V(!new)>(
      c: Codec<V>, g: seq<Record<V>>, ps: seq<seq<byte>>, end: seq<byte>, wal: seq<byte>, r: Record<V>, n: nat)
    requires ValidCodec(c) && IsBroken(c, g, ps, end, wal) && !r.UnknownOp? && 0 < n <= |Framed(c, r)|
    ensures LogOf(c, [], Broken, wal + Framed(c, r)[..n])
  {
    var more := Framed(c, r)[..n];
    if end != [] {
      RegroupTail(Frame(c, g), Concat(ps), end, more);
      assert (end + more)[0] == end[0];
      assert IsBroken(c, g, ps, end + more, wal + more);
    } else {
      OpenLineBreaks(c, g, ps, wal, r, n);
    }
  }

  lemma {:induction false} BreakLine<V(!new)>(
      c: Codec<V>, g: seq<Record<V>>, ps: seq<seq<byte>>, p: seq<byte>, end: seq<byte>)
    requires ValidCodec(c) && Writable(g) && Pieces(c, ps) && ps != [] && IsPiece(c, p)
    requires end != [] ==> end[0] == LF
    ensures IsBroken(c, g, ps + [p], end, Frame(c, g) + Concat(ps) + (p + end))
  {
    OneMorePiece(c, ps, p);
    Regroup(Frame(c, g), Concat(ps), p, end);
  }

  /** Appending to an open line breaks it. */
  lemma {:induction false} OpenLineBreaks<V(!new)>(
      c: Codec<V>, g: seq<Record<V>>, ps: seq<seq<byte>>, wal: seq<byte>, r: Record<V>, n: nat)
    requires ValidCodec(c) && Writable(g) && Pieces(c, ps) && ps != [] && wal == Frame(c, g) + Concat(ps)
    requires !r.UnknownOp? && 0 < n <= |Framed(c, r)|
    ensures LogOf(c, [], Broken, wal + Framed(c, r)[..n])
  {
    var more, p := Framed(c, r)[..n], c.encode(r)[..Min(n, |c.encode(r)|)];
    var end := if n == |Framed(c, r)| then [LF] else [];
    LineParts(c, r, n);
    BreakLine(c, g, ps, p, end);
    assert more == p + end;
    assert IsBroken(c, g, ps + [p], end, wal + more);
  }

  /** A write on a log that ends a line. */
  lemma {:induction false} AppendToClosed<V(!new)>(c: Codec<V>, h: seq<Record<V>>, r: Record<V>, n: nat)
    requires ValidCodec(c) && Writable(h) && !r.UnknownOp? && 0 < n <= |Framed(c, r)|
    ensures var e := if n == |Framed(c, r)| then Closed else if n == |c.encode(r)| then Unterminated else Broken;
            LogOf(c, if n >= |c.encode(r)| then h + [r] else h, e, Frame(c, h) + Framed(c, r)[..n])
  {
    FrameAppend(c, h, r);
    if n < |c.encode(r)| {
      var p := c.encode(r)[..n];
      PieceOf(c, r, n);
      ConcatTwo(p, p);
      assert Framed(c, r)[..n] == p;
      assert Frame(c, h) + p == Frame(c, h) + (Concat([p]) + []);
      assert IsBroken(c, h, [p], [], Frame(c, h) + p);
    } else {
      assert (h + [r])[..|h|] == h;
      assert Framed(c, r)[..|c.encode(r)|] == c.encode(r);
      assert Framed(c, r)[..|Framed(c, r)|] == Framed(c, r);
    }
  }

  /** A write on a log whose last record has lost its LF. */
  lemma {:induction false} AppendToUnterminated<V(!new)>(
      c: Codec<V>, h: seq<Record<V>>, wal: seq<byte>, r: Record<V>, n: nat)
    requires ValidCodec(c) && Writable(h) && LogOf(c, h, Unterminated, wal)
    requires !r.UnknownOp? && 0 < n <= |Framed(c, r)|
    ensures LogOf(c, [], Broken, wal + Framed(c, r)[..n])
  {
    var g, q := h[..|h| - 1], h[|h| - 1];
    assert Writable(g);
    assert c.encode(q) != [];
    PieceOf(c, q, 1);
    var ps := [c.encode(q)];
    ConcatTwo(c.encode(q), []);
    OpenLineBreaks(c, g, ps, wal, r, n);
  }

  /** The bytes an operation adds. */
  function Added<V>(c: Codec<V>, op: Op<V>): seq<byte> {
    var a := Appended(c, op);
    if a.None? then [] else Framed(c, a.value.0)[..a.value.1]
  }

  /** Every operation keeps what is known of the file. */
  lemma {:induction false} OpKeepsLog<V(!new)>(c: Codec<V>, h: seq<Record<V>>, e: Ending, wal: seq<byte>, op: Op<V>)
    requires ValidCodec(c) && Writable(h) && LogOf(c, h, e, wal)
    ensures var r := Effective(c, op);
            LogOf(c, if r.Some? then h + [r.value] else h, EndAfter(c, e, op), wal + Added(c, op))
  {
    var a := Appended(c, op);
    if a.None? || a.value.1 == 0 {
      assert a.Some? ==> c.encode(a.value.0) != [];
      assert wal + Added(c, op) == wal;
    } else if e == Closed {
      AppendToClosed(c, h, a.value.0, a.value.1);
    } else if e == Unterminated {
      AppendToUnterminated(c, h, wal, a.value.0, a.value.1);
    } else {
      var g, ps, end :| IsBroken(c, g, ps, end, wal);
      BrokenStays(c, g, ps, end, wal, a.value.0, a.value.1);
    }
  }

  /** Opening the file. */
  lemma {:induction false} ReopenLog<V(!new)>(c: Codec<V>, h: seq<Record<V>>, e: Ending, wal: seq<byte>)
    requires ValidCodec(c) && Writable(h) && LogOf(c, h, e, wal)
    ensures Replay(c, wal) == if e == Broken || !AllFit(c, h) then Err else Ok(Fold(h, map[]))
  {
    match e
    case Closed => ReopenRestores(c, h);
    case Unterminated =>
      var g, q := h[..|h| - 1], h[|h| - 1];
      assert h == g + [q];
      assert Framed(c, q)[..|c.encode(q)|] == c.encode(q);
      CrashAtAnyByte(c, g, q, |c.encode(q)|);
      assert c.encode(q) != [];
      AllFitAppend(c, g, q);
      FoldAppend(g, q, map[]);
    case Broken =>
      var g, ps, end :| IsBroken(c, g, ps, end, wal);
      PiecesFail(c, g, ps, end);
  }

  lemma {:induction false} AllFitAppend<V>(c: Codec<V>, h: seq<Record<V>>, r: Record<V>)
    ensures AllFit(c, h + [r]) <==> AllFit(c, h) && Fits(c, r)
  {
    assert (h + [r])[|h|] == r;
    assert forall i :: 0 <= i < |h| ==> (h + [r])[i] == h[i];
  }

  lemma {:induction false} PlainIsFold<V>(c: Codec<V>, ops: seq<Op<V>>)
    ensures PlainRun(c, ops) == Fold(Written(c, ops), map[])
  {
    if ops == [] {
    } else {
      var before, r := ops[..|ops| - 1], Effective(c, ops[|ops| - 1]);
      PlainIsFold(c, before);
      if r.Some? {
        FoldAppend(Written(c, before), r.value, map[]);
      }
    }
  }

  /** One operation on memory and file. */
  lemma {:induction false} StepShape<V>(c: Codec<V>, s: State<V>, op: Op<V>)
    ensures Reopens(op) ==> Step(c, s, op) == Reopen(c, s.wal + Added(c, op))
    ensures !Reopens(op) ==> Step(c, s, op).Ok? && Step(c, s, op).value.wal == s.wal + Added(c, op)
  {
    assert s.wal + [] == s.wal;
    if op.Do? && RecordOf(op.write).Some? {
      var line := Framed(c, RecordOf(op.write).value);
      assert line[..|line|] == line;
    }
  }

  /**
   * A run with failing writes, restarts, and crashes at any byte of any write, keeps opening if and
   * only if it is `Recoverable`, and then answers as `Memory` says, which is a plain map that never
   * stops and for which a cut-off write is done or not (`MemoryIsPlain`), until a failed write hides
   * a record; the next restart shows it.
   */
  lemma {:induction false} RunRefinesMap<V(!new)>(c: Codec<V>, ops: seq<Op<V>>)
    requires ValidCodec(c)
    ensures Run(c, ops).Ok? <==> Recoverable(c, ops)
    ensures Run(c, ops).Ok? ==> Run(c, ops).value.data == Memory(c, ops)
                                && LogOf(c, Written(c, ops), EndingOf(c, ops), Run(c, ops).value.wal)
  {
    if ops == [] {
    } else {
      var before, op := ops[..|ops| - 1], ops[|ops| - 1];
      RunRefinesMap(c, before);
      RunOneMore(c, before, op);
      assert before + [op] == ops;
      if Run(c, before).Ok? {
        StepRefines(c, before, op, Run(c, before).value);
      }
    }
  }

  lemma {:induction false} RunOneMore<V>(c: Codec<V>, before: seq<Op<V>>, op: Op<V>)
    ensures var ops, s := before + [op], Run(c, before);
            && Run(c, ops) == (if s.Err? then Err else Step(c, s.value, op))
            && (Recoverable(c, ops) <==>
                  && Recoverable(c, before)
                  && (Reopens(op) ==> EndingOf(c, ops) != Broken && AllFit(c, Written(c, ops))))
  {
    var ops := before + [op];
    assert ops[..|ops| - 1] == before && ops[|ops| - 1] == op;
  }

  lemma {:induction false} OneMoreOp<V>(c: Codec<V>, before: seq<Op<V>>, op: Op<V>)
    ensures var ops, r := before + [op], Effective(c, op);
            && ops[..|ops| - 1] == before
            && Written(c, ops) == (if r.Some? then Written(c, before) + [r.value] else Written(c, before))
            && EndingOf(c, ops) == EndAfter(c, EndingOf(c, before), op)
            && (Reopens(op) ==> Memory(c, ops) == PlainRun(c, ops))
            && (!Reopens(op) ==>
                  Memory(c, ops) == if op.Do? && RecordOf(op.write).Some?
                                    then Apply(Memory(c, before), RecordOf(op.write).value)
                                    else Memory(c, before))
  {
    assert (before + [op])[..|before + [op]| - 1] == before;
  }

  lemma {:induction false} StepRefines<V(!new)>(c: Codec<V>, before: seq<Op<V>>, op: Op<V>, s: State<V>)
    requires ValidCodec(c) && s.data == Memory(c, before)
    requires LogOf(c, Written(c, before), EndingOf(c, before), s.wal)
    ensures var ops, t := before + [op], Step(c, s, op);
            && (t.Ok? <==> (Reopens(op) ==> EndingOf(c, ops) != Broken && AllFit(c, Written(c, ops))))
            && (t.Ok? ==> t.value.data == Memory(c, ops) && LogOf(c, Written(c, ops), EndingOf(c, ops), t.value.wal))
  {
    var ops, wal := before + [op], s.wal + Added(c, op);
    OneMoreOp(c, before, op);
    OpKeepsLog(c, Written(c, before), EndingOf(c, before), s.wal, op);
    StepShape(c, s, op);
    if Reopens(op) {
      ReopenLog(c, Written(c, ops), EndingOf(c, ops), wal);
      PlainIsFold(c, ops);
    }
  }

  /** As long as no failed write hides a record, the store answers as a plain map that never stops. */
  lemma {:induction false} MemoryIsPlain<V>(c: Codec<V>, ops: seq<Op<V>>)
    requires NothingHidden(c, ops)
    ensures Memory(c, ops) == PlainRun(c, ops)
  {
    if ops == [] || Reopens(ops[|ops| - 1]) {
    } else {
      MemoryIsPlain(c, ops[..|ops| - 1]);
    }
  }

  /**
   * Without crashes and failing writes nothing is ever hidden, and the only condition left is that
   * no restart follows a record of 64 KiB or more.
   */
  lemma {:induction false} WithoutCrashes<V>(c: Codec<V>, ops: seq<Op<V>>)
    requires forall i :: 0 <= i < |ops| ==> !ops[i].Crash? && !ops[i].Fail?
    ensures EndingOf(c, ops) == Closed && NothingHidden(c, ops)
    ensures Recoverable(c, ops) <==>
            forall i :: 0 <= i < |ops| && ops[i].Restart? ==> AllFit(c, Written(c, ops[..i]))
  {
    if ops == [] {
    } else {
      var before, op := ops[..|ops| - 1], ops[|ops| - 1];
      WithoutCrashes(c, before);
      WholeLine(c, op);
      forall i | 0 <= i < |before| ensures before[i] == ops[i] && before[..i] == ops[..i] {
        assert ops[..|before|][..i] == ops[..i];
      }
      assert op.Restart? ==> Written(c, ops) == Written(c, before);
    }
  }

  lemma {:induction false} WholeLine<V>(c: Codec<V>, op: Op<V>)
    requires !op.Crash? && !op.Fail?
    ensures EndAfter(c, Closed, op) == Closed && !Hides(c, op)
  {
  }

  /**
   * An append that reports an error after part of its line reached the file, and then any
   * acknowledged write: every later open fails.
   */
  lemma {:induction false} FailedAppendLosesStore<V(!new)>(c: Codec<V>, w: Write<V>, cut: nat, next: Write<V>)
    requires ValidCodec(c) && RecordOf(w).Some? && RecordOf(next).Some? && 0 < cut <= |c.encode(RecordOf(w).value)|
    ensures Run(c, [Fail(w, cut), Do(next)]).Ok?
    ensures Run(c, [Fail(w, cut), Do(next), Restart]) == Err
  {
    var one, two, three := [Fail(w, cut)], [Fail(w, cut), Do(next)], [Fail(w, cut), Do(next), Restart];
    assert one[..0] == [] && two[..1] == one && three[..2] == two;
    RunRefinesMap(c, two);
    RunRefinesMap(c, three);
    assert EndingOf(c, one[..0]) == Closed;
    assert EndingOf(c, one) == EndAfter(c, Closed, Fail(w, cut)) != Closed;
    assert EndingOf(c, two) == EndAfter(c, EndingOf(c, one), Do(next)) == Broken;
    assert EndingOf(c, three) == EndAfter(c, EndingOf(c, two), Restart) == Broken;
    assert Recoverable(c, one[..0]) && Recoverable(c, one) && Recoverable(c, two);
  }

  lemma {:induction false} ReplayOne<V(!new)>(c: Codec<V>, r: Record<V>)
    requires ValidCodec(c) && !r.UnknownOp? && Fits(c, r)
    ensures Replay(c, Framed(c, r)) == Ok(Apply(map[], r))
  {
    var h := [r];
    assert h[1..] == [];
    assert Frame(c, h) == Framed(c, r) + Frame(c, h[1..]) == Framed(c, r);
    assert Fold(h, map[]) == Fold(h[1..], Apply(map[], r)) == Apply(map[], r);
    ReopenRestores(c, h);
  }

  lemma {:induction false} RunFirst<V>(c: Codec<V>, op: Op<V>)
    ensures Run(c, [op]) == Step(c, State([], map[]), op)
  {
    assert [op][..0] == [];
    assert Run(c, [op][..0]) == Ok(State([], map[]));
  }

  lemma {:induction false} RunSecond<V>(c: Codec<V>, op: Op<V>, next: Op<V>)
    requires Run(c, [op]).Ok?
    ensures Run(c, [op, next]) == Step(c, Run(c, [op]).value, next)
  {
    assert [op, next][..1] == [op];
  }

  lemma {:induction false} WholeFail<V>(c: Codec<V>, k: string, v: V)
    requires k != ""
    ensures var line := Framed(c, Put(k, v)); Run(c, [Fail(WritePut(k, v), |line|)]) == Ok(State(line, map[]))
  {
    var line := Framed(c, Put(k, v));
    RunFirst(c, Fail(WritePut(k, v), |line|));
    assert Remains(c, WritePut(k, v), |line|) == line[..|line|] == line;
    assert [] + line == line;
  }

  /** A failed Sync on an empty store: the put is refused, and the next restart brings it back. */
  lemma {:induction false} FailedSyncShowsLater<V(!new)>(c: Codec<V>, k: string, v: V)
    requires ValidCodec(c) && k != "" && Fits(c, Put(k, v))
    ensures var line := Framed(c, Put(k, v));
            var fail := Fail(WritePut(k, v), |line|);
            && Run(c, [fail]) == Ok(State(line, map[]))
            && Run(c, [fail, Restart]) == Ok(State(line, map[k := v]))
  {
    var line := Framed(c, Put(k, v));
    var fail: Op<V> := Fail(WritePut(k, v), |line|);
    ReplayOne(c, Put(k, v));
    WholeFail(c, k, v);
    RunSecond(c, fail, Restart);
  }

  // ----- The store itself -----

  /** What the file system may do to one append. */
  datatype AppendOutcome = Durable | ShortWrite(n: nat) | SyncFailed

  /** How many of a line's bytes are in the file after an append. */
  function Kept(o: AppendOutcome, size: nat): (n: nat)
    ensures n <= size
  {
    if o.ShortWrite? then Min(o.n, size) else size
  }

  /** A short write leaves its bytes of the line, a failed Sync all of them. */
  lemma {:induction false} KeptBytes(n: nat, size: nat)
    ensures Kept(ShortWrite(n), size) == (if n < size then n else size)
    ensures Kept(SyncFailed, size) == size && Kept(Durable, size) == size
  {
  }

  /** The bytes of a put that a failing append or a crash leaves, and what happens then. */
  lemma {:induction false} CutOffText<V>(c: Codec<V>, s: State<V>, k: string, v: V, cut: nat)
    requires k != ""
    ensures var line := c.encode(Put(k, v)) + [10];
            var wal := s.wal + line[..if cut < |line| then cut else |line|];
            && Step(c, s, Fail(WritePut(k, v), cut)) == Ok(State(wal, s.data))
            && Step(c, s, Crash(WritePut(k, v), cut))
               == (if Replay(c, wal).Ok? then Ok(State(wal, Replay(c, wal).value)) else Err)
    ensures var line := c.encode(Delete(k)) + [10];
            var wal := s.wal + line[..if cut < |line| then cut else |line|];
            && Step(c, s, Fail(WriteDelete(k), cut)) == Ok(State(wal, s.data))
            && Step(c, s, Crash(WriteDelete(k), cut))
               == (if Replay(c, wal).Ok? then Ok(State(wal, Replay(c, wal).value)) else Err)
  {
  }

  /** The step of a run that a write on the store is. */
  function OpOf<V>(c: Codec<V>, w: Write<V>, open: bool, o: AppendOutcome): Op<V> {
    if !open || w.key == "" then Fail(w, 0)
    else if o == Durable then Do(w)
    else Fail(w, Kept(o, if w.WritePut? then |Framed(c, Put(w.key, w.value))| else |Framed(c, Delete(w.key))|))
  }

  /** What `Store.Put` and `Store.Delete` promise is that step. */
  lemma {:induction false} WriteIsStep<V>(c: Codec<V>, s: State<V>, w: Write<V>, open: bool, o: AppendOutcome)
    ensures var r := if w.WritePut? then Put(w.key, w.value) else Delete(w.key);
            var line := Framed(c, r);
            var done := w.key != "" && open && o == Durable;
            && Step(c, s, OpOf(c, w, open, o)).Ok?
            && var t := Step(c, s, OpOf(c, w, open, o)).value;
               && t.wal == (if w.key != "" && open then s.wal + line[..Kept(o, |line|)] else s.wal)
               && (!done ==> t.data == s.data)
               && (done && w.WritePut? ==> t.data == s.data[w.key := w.value])
               && (done && w.WriteDelete? ==> t.data == s.data - {w.key})
  {
    var r := if w.WritePut? then Put(w.key, w.value) else Delete(w.key);
    var line := Framed(c, r);
    assert line[..|line|] == line && line[..0] == [] && s.wal + [] == s.wal;
  }

  class Store<V(!new)> {
    const codec: Codec<V>
    /** What the file system does to each append, by number. */
    const outcomes: nat -> AppendOutcome
    var appends: nat
    var data: map<string, V>
    /** The bytes of the log file. */
    var wal: seq<byte>
    var open: bool
    /** How many appends have reported an error. */
    ghost var failures: nat

    /** Memory and log agree; this holds until an append reports an error. */
    ghost predicate Agrees()
      reads this
    {
      exists h :: Writable(h) && wal == Frame(codec, h) && data == Fold(h, map[])
    }

    /** The log is open and no append from now on fails. */
    ghost predicate Sound()
      reads this
    {
      open && forall n :: n >= appends ==> outcomes(n) == Durable
    }

    constructor Replayed(codec: Codec<V>, disk: seq<byte>, data: map<string, V>, outcomes: nat -> AppendOutcome)
      ensures this.codec == codec && this.outcomes == outcomes && appends == 0
      ensures wal == disk && this.data == data && open && failures == 0
    {
      this.codec, this.outcomes, this.appends := codec, outcomes, 0;
      this.wal, this.data, this.open, this.failures := disk, data, true, 0;
    }

    /** Opens the store over a log file holding `disk`. */
    static method New(codec: Codec<V>, disk: seq<byte>, outcomes: nat -> AppendOutcome) returns (r: Result<Store<V>>)
      requires ValidCodec(codec)
      ensures r.Ok? <==> Replay(codec, disk).Ok?
      ensures r.Ok? ==> r.value.codec == codec && r.value.open && r.value.outcomes == outcomes && r.value.appends == 0
      ensures r.Ok? ==> r.value.wal == disk && r.value.data == Replay(codec, disk).value
      ensures r.Ok? ==> fresh(r.value)
      ensures forall h :: Writable(h) && disk == Frame(codec, h) ==>
                && (r.Ok? <==> forall i :: 0 <= i < |h| ==> |codec.encode(h[i])| < 65536)
                && (r.Ok? ==> r.value.Agrees() && r.value.data == Fold(h, map[]))
    {
      var m := ReplayWAL(codec, disk);
      forall h | Writable(h) && disk == Frame(codec, h)
        ensures m == if AllFit(codec, h) then Ok(Fold(h, map[])) else Err
        ensures m.Ok? <==> forall i :: 0 <= i < |h| ==> |codec.encode(h[i])| < 65536
      {
        ReopenRestores(codec, h);
        ShortRecordsReopen(codec, h);
      }
      if m.Err? {
        return Err;
      }
      var s := new Store<V>.Replayed(codec, disk, m.value, outcomes);
      return Ok(s);
    }

    /** Rebuilds the map line by line. */
    static method ReplayWAL(codec: Codec<V>, disk: seq<byte>) returns (r: Result<map<string, V>>)
      ensures r == Replay(codec, disk)
    {
      var data: map<string, V> := map[];
      var lines := Lines(disk);
      for i := 0 to |lines|
        invariant ReplayLines(codec, lines[i..], data) == Replay(codec, disk)
      {
        assert lines[i..][1..] == lines[i + 1..];
        if |lines[i]| >= MAX_TOKEN_SIZE {
          return Err;
        }
        var rec := codec.decode(DropCR(lines[i]));
        match rec {
          case None => return Err;
          case Some(Put(k, v)) => data := data[k := v];
          case Some(Delete(k)) => data := data - {k};
          case Some(UnknownOp) => return Err;
        }
      }
      return Ok(data);
    }

    /** Writes and syncs one record; on an error some prefix of the line is in the file. */
    method AppendRecord(rec: Record<V>) returns (r: Result<()>)
      modifies this`wal, this`failures, this`appends
      ensures r.Ok? <==> open && outcomes(old(appends)) == Durable
      ensures var line := Framed(codec, rec);
              wal == if open then old(wal) + line[..Kept(outcomes(old(appends)), |line|)] else old(wal)
      ensures r.Ok? ==> wal == old(wal) + Framed(codec, rec)
      ensures appends == old(appends) + if open then 1 else 0
      ensures failures == old(failures) + if r.Err? then 1 else 0
    {
      var line := Framed(codec, rec);
      assert line[..|line|] == line;
      if !open {
        failures := failures + 1;
        return Err;
      }
      var outcome := outcomes(appends);
      appends := appends + 1;
      match outcome {
        case Durable =>
          wal := wal + line;
          return Ok(());
        case ShortWrite(n) =>
          wal := wal + line[..Min(n, |line|)];
          failures := failures + 1;
          return Err;
        case SyncFailed =>
          wal := wal + line;
          failures := failures + 1;
          return Err;
      }
    }

    /** Sets a key and persists it; it fails only for an empty key or with its append. */
    method Put(key: string, value: V) returns (r: Result<()>)
      modifies this`wal, this`data, this`failures, this`appends
      ensures r.Ok? <==> key != "" && open && outcomes(old(appends)) == Durable
      ensures r.Ok? ==> wal == old(wal) + Framed(codec, Record.Put(key, value))
      ensures data == if r.Ok? then old(data)[key := value] else old(data)
      ensures var line := Framed(codec, Record.Put(key, value));
              wal == if key != "" && open then old(wal) + line[..Kept(outcomes(old(appends)), |line|)] else old(wal)
      ensures appends == old(appends) + if key != "" && open then 1 else 0
      ensures failures == old(failures) + if r.Err? && key != "" then 1 else 0
      ensures old(Agrees()) && failures == old(failures) ==> Agrees()
    {
      if key == "" {
        return Err;
      }
      var rec := Record.Put(key, value);
      r := AppendRecord(rec);
      if r.Err? {
        return;
      }
      data := data[key := value];
      if old(Agrees()) {
        AgreesAfter(rec);
      }
    }

    /** Removes a key and persists it; it fails only for an empty key or with its append. */
    method Delete(key: string) returns (r: Result<()>)
      modifies this`wal, this`data, this`failures, this`appends
      ensures r.Ok? <==> key != "" && open && outcomes(old(appends)) == Durable
      ensures r.Ok? ==> wal == old(wal) + Framed(codec, Record.Delete(key))
      ensures data == if r.Ok? then old(data) - {key} else old(data)
      ensures var line := Framed(codec, Record.Delete(key));
              wal == if key != "" && open then old(wal) + line[..Kept(outcomes(old(appends)), |line|)] else old(wal)
      ensures appends == old(appends) + if key != "" && open then 1 else 0
      ensures failures == old(failures) + if r.Err? && key != "" then 1 else 0
      ensures old(Agrees()) && failures == old(failures) ==> Agrees()
    {
      if key == "" {
        return Err;
      }
      var rec := Record.Delete(key);
      r := AppendRecord(rec);
      if r.Err? {
        return;
      }
      data := data - {key};
      if old(Agrees()) {
        AgreesAfter(rec);
      }
    }

    twostate lemma AgreesAfter(rec: Record<V>)
      requires old(Agrees()) && !rec.UnknownOp?
      requires wal == old(wal) + Framed(codec, rec) && data == Apply(old(data), rec)
      ensures Agrees()
    {
      var h :| Writable(h) && old(wal) == Frame(codec, h) && old(data) == Fold(h, map[]);
      FrameAppend(codec, h, rec);
      FoldAppend(h, rec, map[]);
      assert Writable(h + [rec]);
    }

    method Get(key: string) returns (value: Option<V>)
      ensures value == if key in data then Some(data[key]) else None
    {
      if key in data {
        return Some(data[key]);
      }
      return None;
    }

    /** A snapshot of the keys, each once, in no particular order. */
    method Keys() returns (keys: seq<string>)
      ensures forall k :: k in keys <==> k in data
      ensures forall i, j :: 0 <= i < j < |keys| ==> keys[i] != keys[j]
    {
      keys := [];
      var left := data.Keys;
      while left != {}
        invariant forall k :: k in data <==> k in left || k in keys
        invariant forall k :: k in left ==> k !in keys
        invariant forall i, j :: 0 <= i < j < |keys| ==> keys[i] != keys[j]
        decreases left
      {
        var k :| k in left;
        keys := keys + [k];
        left := left - {k};
      }
    }

    /** Closes the log, after which writes report an error; closing twice is fine. */
    method Close(fails: bool) returns (r: Result<()>)
      modifies this`open
      ensures r.Err? <==> old(open) && fails
      ensures open <==> r.Err?
    {
      if open {
        if fails {
          return Err;
        }
        open := false;
      }
      return Ok(());
    }
  }
}
