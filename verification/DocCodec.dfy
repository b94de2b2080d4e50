/**
 * An encoding of the control plane's records as store values, and with it a codec for the whole
 * store: every contract about a `Store<Doc>` speaks of stores that exist.
 *
 * A record is written as its fields in order, strings escaped as in JSON, each list preceded by
 * its length.  The source writes the same fields as a JSON object.
 */
module DocCodec {
  import opened Types
  import opened Wal
  import opened Records
  import opened JsonCodec

  datatype Token = Num(n: int) | Word(s: string)

  // ----- Tokens as bytes -----

  const PLUS: byte := 43
  const MINUS: byte := 45
  const COMMA: byte := 44

  /** Decimal digits, the lowest first. */
  function Digits(n: nat): Bytes {
    if n < 10 then [48 + n] else [48 + n % 10] + Digits(n / 10)
  }

  function TokenBytes(t: Token): (b: Bytes)
    ensures b != []
  {
    match t
    case Num(n) => [if n < 0 then MINUS else PLUS] + (Digits(if n < 0 then -n else n) + [COMMA])
    case Word(s) => [QUOTE] + (Escape(s) + [QUOTE])
  }

  function ReadDigits(b: Bytes): (r: Option<(nat, Bytes)>)
    ensures r.Some? ==> |r.value.1| < |b|
  {
    if b == [] then None
    else if b[0] == COMMA then Some((0, b[1..]))
    else if 48 <= b[0] < 58 then
      match ReadDigits(b[1..])
      case None => None
      case Some((m, rest)) => Some((b[0] - 48 + 10 * m, rest))
    else None
  }

  lemma {:induction false} StringShrinks(b: Bytes)
    ensures ReadString(b).Some? ==> |ReadString(b).value.1| < |b|
    decreases |b|
  {
    if b == [] || b[0] == QUOTE {
    } else if ReadChar(b).Some? {
      StringShrinks(b[ReadChar(b).value.1..]);
    }
  }

  function Signed(sign: byte, n: int): int {
    if sign == MINUS then -n else n
  }

  function ReadToken(b: Bytes): (r: Option<(Token, Bytes)>)
    ensures r.Some? ==> |r.value.1| < |b|
  {
    if b == [] then None
    else if b[0] == QUOTE then
      StringShrinks(b[1..]);
      match ReadString(b[1..])
      case None => None
      case Some((s, rest)) => Some((Word(s), rest))
    else
      match ReadDigits(b[1..])
      case None => None
      case Some((n, rest)) => Some((Num(Signed(b[0], n)), rest))
  }

  lemma {:induction false} ReadWrittenDigits(n: nat, rest: Bytes)
    ensures ReadDigits(Digits(n) + [COMMA] + rest) == Some((n, rest))
  {
    var b := Digits(n) + [COMMA] + rest;
    assert b[0] == Digits(n)[0];
    if n < 10 {
      assert b[1..] == [COMMA] + rest;
      assert ([COMMA] + rest)[1..] == rest;
    } else {
      ReadWrittenDigits(n / 10, rest);
      assert b[1..] == Digits(n / 10) + [COMMA] + rest;
      assert n == n % 10 + 10 * (n / 10);
    }
  }

  lemma {:induction false} ReadWrittenNum(n: int, rest: Bytes)
    ensures ReadToken(TokenBytes(Num(n)) + rest) == Some((Num(n), rest))
  {
    var b := TokenBytes(Num(n)) + rest;
    var m: nat := if n < 0 then -n else n;
    assert b[0] == (if n < 0 then MINUS else PLUS);
    assert b[1..] == Digits(m) + [COMMA] + rest;
    ReadWrittenDigits(m, rest);
  }

  lemma {:induction false} ReadWrittenWord(s: string, rest: Bytes)
    ensures ReadToken(TokenBytes(Word(s)) + rest) == Some((Word(s), rest))
  {
    var b := TokenBytes(Word(s)) + rest;
    assert b[0] == QUOTE;
    assert b[1..] == Escape(s) + [QUOTE] + rest;
    ReadEscaped(s, rest);
  }

  lemma {:induction false} ReadWrittenToken(t: Token, rest: Bytes)
    ensures ReadToken(TokenBytes(t) + rest) == Some((t, rest))
  {
    match t
    case Num(n) => ReadWrittenNum(n, rest);
    case Word(s) => ReadWrittenWord(s, rest);
  }

  function TokensBytes(ts: seq<Token>): Bytes {
    if ts == [] then [] else TokenBytes(ts[0]) + TokensBytes(ts[1..])
  }

  function ReadTokens(b: Bytes): seq<Token>
    decreases |b|
  {
    match ReadToken(b)
    case None => []
    case Some((t, rest)) => [t] + ReadTokens(rest)
  }

  lemma {:induction false} ReadWrittenTokens(ts: seq<Token>)
    ensures ReadTokens(TokensBytes(ts)) == ts
  {
    if ts == [] {
    } else {
      ReadWrittenToken(ts[0], TokensBytes(ts[1..]));
      ReadWrittenTokens(ts[1..]);
    }
  }

  // ----- Records as tokens -----

  function NumAt(ts: seq<Token>, i: nat): int {
    if i < |ts| && ts[i].Num? then ts[i].n else 0
  }

  function WordAt(ts: seq<Token>, i: nat): string {
    if i < |ts| && ts[i].Word? then ts[i].s else ""
  }

  function TopsTokens(tops: seq<Float>): (ts: seq<Token>)
    ensures |ts| == 2 * |tops|
  {
    if tops == [] then [] else [Num(tops[0].mantissa), Num(tops[0].exponent)] + TopsTokens(tops[1..])
  }

  function ReadTops(ts: seq<Token>): seq<Float> {
    if |ts| < 2 then [] else [Float(NumAt(ts, 0), NumAt(ts, 1))] + ReadTops(ts[2..])
  }

  lemma {:induction false} ReadWrittenTops(tops: seq<Float>)
    ensures ReadTops(TopsTokens(tops)) == tops
  {
    if tops == [] {
    } else {
      assert TopsTokens(tops)[2..] == TopsTokens(tops[1..]);
      ReadWrittenTops(tops[1..]);
    }
  }

  function WordTokens(words: seq<string>): seq<Token> {
    if words == [] then [] else [Word(words[0])] + WordTokens(words[1..])
  }

  function ReadWords(ts: seq<Token>): seq<string> {
    if ts == [] then [] else [WordAt(ts, 0)] + ReadWords(ts[1..])
  }

  lemma {:induction false} ReadWrittenWords(words: seq<string>)
    ensures ReadWords(WordTokens(words)) == words
  {
    if words == [] {
    } else {
      assert WordTokens(words)[1..] == WordTokens(words[1..]);
      ReadWrittenWords(words[1..]);
    }
  }

  function NodeStatusTokens(s: NodeStatus): (ts: seq<Token>)
    ensures |ts| == 2
  {
    match s
    case Online => [Num(0), Word("")]
    case Unknown => [Num(1), Word("")]
    case Offline => [Num(2), Word("")]
    case OtherStatus(text) => [Num(3), Word(text)]
  }

  function ReadNodeStatus(tag: int, text: string): NodeStatus {
    if tag == 0 then Online else if tag == 1 then Unknown else if tag == 2 then Offline else OtherStatus(text)
  }

  function ReplicaStatusTokens(s: ReplicaStatus): (ts: seq<Token>)
    ensures |ts| == 2
  {
    match s
    case Pending => [Num(0), Word("")]
    case Running => [Num(1), Word("")]
    case Failed => [Num(2), Word("")]
    case UnknownReplica => [Num(3), Word("")]
    case OtherReplicaStatus(text) => [Num(4), Word(text)]
  }

  function ReadReplicaStatus(tag: int, text: string): ReplicaStatus {
    if tag == 0 then Pending
    else if tag == 1 then Running
    else if tag == 2 then Failed
    else if tag == 3 then UnknownReplica
    else OtherReplicaStatus(text)
  }

  /** The fields of a node other than its lists, after its kind. */
  function NodeHead(n: NodeInfo): (ts: seq<Token>)
    ensures |ts| == 13
  {
    [Num(0), Word(n.id), Word(n.name), Word(n.ip), Num(n.port), Word(n.metadata)]
    + NodeStatusTokens(n.status)
    + [Num(n.registeredAt), Num(n.updatedAt), Num(n.lastHeartbeat), Num(n.lastActivity), Num(|n.tops|)]
  }

  function Tokens(d: Doc): seq<Token> {
    match d
    case NodeDoc(n) => NodeHead(n) + (TopsTokens(n.tops) + WordTokens(n.assignedModels))
    case ModelDoc(m) =>
      [Num(1), Word(m.id), Word(m.name), Word(m.namespace), Word(m.filePath), Num(m.replicas)]
    case ReplicaDoc(r) =>
      [Num(2), Word(r.id), Word(r.modelId), Word(r.name)] + ReplicaStatusTokens(r.status)
      + [Num(r.errorCode), Word(r.errorMessage), Num(r.lastHeartbeat)]
    case Corrupt => [Num(3)]
  }

  function NodeOf(head: seq<Token>, tops: seq<Float>, assignedModels: seq<string>): NodeInfo {
    NodeInfo(WordAt(head, 1), WordAt(head, 2), WordAt(head, 3), NumAt(head, 4), WordAt(head, 5),
             tops, ReadNodeStatus(NumAt(head, 6), WordAt(head, 7)), assignedModels,
             NumAt(head, 8), NumAt(head, 9), NumAt(head, 10), NumAt(head, 11))
  }

  function ReadNode(ts: seq<Token>): Doc {
    var k := NumAt(ts, 12);
    if k < 0 || 13 + 2 * k > |ts| then Corrupt
    else NodeDoc(NodeOf(ts[..13], ReadTops(ts[13..13 + 2 * k]), ReadWords(ts[13 + 2 * k..])))
  }

  function FromTokens(ts: seq<Token>): Doc {
    if NumAt(ts, 0) == 0 then ReadNode(ts)
    else if NumAt(ts, 0) == 1 then
      ModelDoc(ModelInfo(WordAt(ts, 1), WordAt(ts, 2), WordAt(ts, 3), WordAt(ts, 4), NumAt(ts, 5)))
    else if NumAt(ts, 0) == 2 then
      ReplicaDoc(ReplicaInfo(WordAt(ts, 1), WordAt(ts, 2), WordAt(ts, 3),
                             ReadReplicaStatus(NumAt(ts, 4), WordAt(ts, 5)),
                             NumAt(ts, 6), WordAt(ts, 7), NumAt(ts, 8)))
    else Corrupt
  }

  lemma {:induction false} HeadHoldsNode(n: NodeInfo)
    ensures NodeOf(NodeHead(n), n.tops, n.assignedModels) == n
    ensures NumAt(NodeHead(n), 0) == 0 && NumAt(NodeHead(n), 12) == |n.tops|
  {
  }

  lemma {:induction false} AssembleNode(head: seq<Token>, tops: seq<Token>, words: seq<Token>, k: nat)
    requires |head| == 13 && NumAt(head, 12) == k && |tops| == 2 * k
    ensures ReadNode(head + (tops + words)) == NodeDoc(NodeOf(head, ReadTops(tops), ReadWords(words)))
    ensures NumAt(head + (tops + words), 0) == NumAt(head, 0)
  {
    var ts := head + (tops + words);
    assert ts[..13] == head && ts[13..13 + 2 * k] == tops && ts[13 + 2 * k..] == words;
    assert ts[12] == head[12];
  }

  lemma {:induction false} ReadWrittenNode(n: NodeInfo)
    ensures ReadNode(Tokens(NodeDoc(n))) == NodeDoc(n) && NumAt(Tokens(NodeDoc(n)), 0) == 0
  {
    HeadHoldsNode(n);
    AssembleNode(NodeHead(n), TopsTokens(n.tops), WordTokens(n.assignedModels), |n.tops|);
    ReadWrittenTops(n.tops);
    ReadWrittenWords(n.assignedModels);
  }

  lemma {:induction false} ReadWrittenDoc(d: Doc)
    ensures FromTokens(Tokens(d)) == d
  {
    if d.NodeDoc? {
      ReadWrittenNode(d.node);
    }
  }

  // ----- The store's codec -----

  function DocBytes(d: Doc): Bytes {
    TokensBytes(Tokens(d))
  }

  function BytesDoc(b: Bytes): Doc {
    FromTokens(ReadTokens(b))
  }

  /** A record's value read back from its bytes is the record. */
  lemma {:induction false} DocRoundTrip(d: Doc)
    ensures BytesDoc(DocBytes(d)) == d
  {
    ReadWrittenTokens(Tokens(d));
    ReadWrittenDoc(d);
  }

  function ToBytes(r: Record<Doc>): Record<Bytes> {
    match r
    case Put(k, d) => Put(k, DocBytes(d))
    case Delete(k) => Delete(k)
    case UnknownOp => UnknownOp
  }

  function ToDoc(r: Record<Bytes>): Record<Doc> {
    match r
    case Put(k, b) => Put(k, BytesDoc(b))
    case Delete(k) => Delete(k)
    case UnknownOp => UnknownOp
  }

  function DecodeDoc(c: Codec<Bytes>, b: Bytes): Option<Record<Doc>> {
    match c.decode(b)
    case None => None
    case Some(r) => Some(ToDoc(r))
  }

  /** Documents through a codec for byte-string values. */
  function Through(c: Codec<Bytes>): Codec<Doc> {
    Codec(r => c.encode(ToBytes(r)), b => DecodeDoc(c, b))
  }

  lemma {:induction false} ReadThrough(c: Codec<Bytes>, r: Record<Doc>)
    requires ValidCodec(c) && !r.UnknownOp?
    ensures DecodeDoc(c, c.encode(ToBytes(r))) == Some(r)
  {
    assert c.decode(c.encode(ToBytes(r))) == Some(ToBytes(r));
    if r.Put? {
      DocRoundTrip(r.value);
    }
  }

  lemma {:induction false} PrefixThrough(c: Codec<Bytes>, r: Record<Bytes>, k: nat)
    requires ValidCodec(c) && !r.UnknownOp? && 0 < k < |c.encode(r)|
    ensures DecodeDoc(c, c.encode(r)[..k]) == None
  {
  }

  /** What is a piece for the documents is one for their bytes. */
  lemma {:induction false} PiecesThrough(c: Codec<Bytes>, ps: seq<Bytes>)
    requires ValidCodec(c) && Pieces(Through(c), ps) && |ps| >= 2
    ensures DecodeDoc(c, Concat(ps)) == None
  {
    forall i | 0 <= i < |ps| ensures IsPiece(c, ps[i]) {
      assert IsPiece(Through(c), ps[i]);
      var r: Record<Doc>, k :| !r.UnknownOp? && 0 < k <= |Through(c).encode(r)| && ps[i] == Through(c).encode(r)[..k];
      assert !ToBytes(r).UnknownOp? && ps[i] == c.encode(ToBytes(r))[..k];
    }
  }

  lemma {:induction false} LineThrough(c: Codec<Bytes>, r: Record<Bytes>, i: nat)
    requires ValidCodec(c) && i < |c.encode(r)|
    ensures c.encode(r)[i] != LF && c.encode(r)[i] != CR
  {
  }

  lemma {:induction false} ThroughIsValid(c: Codec<Bytes>)
    requires ValidCodec(c)
    ensures ValidCodec(Through(c))
  {
    var d := Through(c);
    assert d.decode([]) == None;
    forall r: Record<Doc> | !r.UnknownOp? ensures d.decode(d.encode(r)) == Some(r) {
      ReadThrough(c, r);
    }
    forall r: Record<Doc>, i | 0 <= i < |d.encode(r)| ensures d.encode(r)[i] != LF && d.encode(r)[i] != CR {
      LineThrough(c, ToBytes(r), i);
    }
    forall r: Record<Doc>, k | !r.UnknownOp? && 0 < k < |d.encode(r)| ensures d.decode(d.encode(r)[..k]) == None {
      PrefixThrough(c, ToBytes(r), k);
    }
    forall ps | |ps| >= 2 && Pieces(d, ps) ensures d.decode(Concat(ps)) == None {
      PiecesThrough(c, ps);
    }
  }

  /** The codec of the control plane's store. */
  function DocCodec(): Codec<Doc> {
    Through(CodecOf(GoSyntax()))
  }

  /** The store's log of control-plane records has a valid codec. */
  lemma {:induction false} DocCodecIsValid()
    ensures ValidCodec(DocCodec())
  {
    JsonIsValid();
    ThroughIsValid(CodecOf(GoSyntax()));
  }
}
