/**
 * Model upload: the client's chunking loop, the server's validate-then-commit stream handler,
 * and any interleaving of uploads into one model directory.
 *
 * SHA-256 is a parameter, the hex digest of a byte string; the incremental hasher is the
 * string of bytes written to it.  File names are compared and split as on a Unix system.
 */
module Upload {
  import opened Types

  /** 2 MiB. */
  const CHUNK_SIZE: nat := 2 * 1024 * 1024

  /** The directory models are stored in and the digest. */
  datatype Server = Server(dir: string, digest: Bytes -> string)

  datatype Message =
    | Metadata(filename: string, totalSize: int, hash: string)
    | Chunk(data: Bytes, offset: int)
    | NoContent

  /** What the handler meets next; `fault` says that the file-system operation it leads to fails. */
  datatype Event = Recv(msg: Message, fault: bool) | Eof(fault: bool) | Broken

  // ----- Names -----

  predicate IsSpace(c: char) {
    var n := c as int;
    9 <= n <= 13 || n == 32 || n == 0x85 || n == 0xA0 || n == 0x1680 || 0x2000 <= n <= 0x200A
    || n == 0x2028 || n == 0x2029 || n == 0x202F || n == 0x205F || n == 0x3000
  }

  /** The characters trimmed from names and digests: Unicode white space. */
  lemma {:induction false} SpaceText(c: char)
    ensures IsSpace(c) <==>
            c as int in {9, 10, 11, 12, 13, 32, 133, 160, 5760, 8192, 8193, 8194, 8195, 8196, 8197, 8198, 8199, 8200,
                         8201, 8202, 8232, 8233, 8239, 8287, 12288}
  {
  }

  function Trim(s: string): string {
    if s != "" && IsSpace(s[0]) then Trim(s[1..])
    else if s != "" && IsSpace(s[|s| - 1]) then Trim(s[..|s| - 1])
    else s
  }

  predicate AllSpace(s: string) {
    forall i :: 0 <= i < |s| ==> IsSpace(s[i])
  }

  /** Trimming takes off spaces at both ends, and all of them. */
  lemma {:induction false} TrimTakesSpaces(s: string) returns (a: string, b: string)
    ensures s == a + Trim(s) + b && AllSpace(a) && AllSpace(b)
    ensures Trim(s) != "" ==> !IsSpace(Trim(s)[0]) && !IsSpace(Trim(s)[|Trim(s)| - 1])
    decreases |s|
  {
    if s != "" && IsSpace(s[0]) {
      a, b := TrimTakesSpaces(s[1..]);
      MoreInFront(s, a, Trim(s[1..]), b);
      a := [s[0]] + a;
    } else if s != "" && IsSpace(s[|s| - 1]) {
      a, b := TrimTakesSpaces(s[..|s| - 1]);
      MoreBehind(s, a, Trim(s[..|s| - 1]), b);
      b := b + [s[|s| - 1]];
    } else {
      a, b := "", "";
    }
  }

  lemma {:induction false} MoreInFront(s: string, a: string, t: string, b: string)
    requires s != "" && s[1..] == a + t + b && IsSpace(s[0]) && AllSpace(a)
    ensures s == ([s[0]] + a) + t + b && AllSpace([s[0]] + a)
  {
    assert s == [s[0]] + s[1..];
  }

  lemma {:induction false} MoreBehind(s: string, a: string, t: string, b: string)
    requires s != "" && s[..|s| - 1] == a + t + b && IsSpace(s[|s| - 1]) && AllSpace(b)
    ensures s == a + t + (b + [s[|s| - 1]]) && AllSpace(b + [s[|s| - 1]])
  {
    assert s == s[..|s| - 1] + [s[|s| - 1]];
  }

  function Lower(c: char): char {
    if 'A' <= c <= 'Z' then ((c as int) + 32) as char else c
  }

  predicate IsOnnxName(s: string) {
    && |s| >= 5 && s[|s| - 5] == '.' && Lower(s[|s| - 4]) == 'o' && Lower(s[|s| - 3]) == 'n'
    && Lower(s[|s| - 2]) == 'n' && Lower(s[|s| - 1]) == 'x'
  }

  /** The name ends in .onnx, in small or capital letters. */
  lemma {:induction false} OnnxNameText(s: string)
    ensures IsOnnxName(s) <==>
            && |s| >= 5 && s[|s| - 5] == '.' && s[|s| - 4] in {'o', 'O'} && s[|s| - 3] in {'n', 'N'}
            && s[|s| - 2] in {'n', 'N'} && s[|s| - 1] in {'x', 'X'}
  {
  }

  /** What follows the last slash. */
  function BaseName(s: string): (r: string)
    ensures |r| <= |s| && r == s[|s| - |r|..] && '/' !in r
  {
    if s == "" then ""
    else if s[|s| - 1] == '/' then ""
    else
      var r := BaseName(s[..|s| - 1]);
      r + [s[|s| - 1]]
  }

  function FinalPath(v: Server, filename: string): string {
    v.dir + "/" + BaseName(filename)
  }

  function TempPath(v: Server, uuid: string): string {
    v.dir + "/" + uuid + ".uploading"
  }

  /** A name without slashes is the whole file name, also behind a directory. */
  lemma {:induction false} PathText(v: Server, d: string, name: string, uuid: string)
    requires '/' !in name
    ensures FinalPath(v, name) == v.dir + "/" + name
    ensures FinalPath(v, d + "/" + name) == v.dir + "/" + name
    ensures TempPath(v, uuid) == v.dir + "/" + uuid + ".uploading"
  {
    BaseOfPlain(name);
    BaseBehind(d, name);
  }

  /** The base name is all that follows the last slash. */
  lemma {:induction false} BaseIsAll(s: string)
    ensures |BaseName(s)| < |s| ==> s[|s| - |BaseName(s)| - 1] == '/'
  {
    if s == "" || s[|s| - 1] == '/' {
    } else {
      BaseIsAll(s[..|s| - 1]);
    }
  }

  lemma {:induction false} BaseOfPlain(name: string)
    requires '/' !in name
    ensures BaseName(name) == name
  {
    if name == "" {
    } else {
      var last := |name| - 1;
      assert name == name[..last] + [name[last]];
      BaseOfPlain(name[..last]);
    }
  }

  lemma {:induction false} BaseBehind(d: string, name: string)
    requires '/' !in name
    ensures BaseName(d + "/" + name) == name
  {
    var s := d + "/" + name;
    if name == "" {
      assert s == d + "/";
    } else {
      var last := |name| - 1;
      assert name == name[..last] + [name[last]];
      assert s[..|s| - 1] == d + "/" + name[..last];
      BaseBehind(d, name[..last]);
    }
  }

  /** The temporary file of one of these uploads. */
  ghost predicate IsTemp(v: Server, uuids: seq<string>, p: string) {
    exists i :: 0 <= i < |uuids| && p == TempPath(v, uuids[i])
  }

  /** No upload's temporary file. */
  ghost predicate NeverTemp(v: Server, p: string) {
    forall uuid :: p != TempPath(v, uuid)
  }

  lemma {:induction false} PathsApart(v: Server, filename: string)
    requires IsOnnxName(filename)
    ensures NeverTemp(v, FinalPath(v, filename))
  {
    var base := BaseName(filename);
    assert base != "" by {
      assert filename[|filename| - 1] != '/';
    }
    assert FinalPath(v, filename)[|FinalPath(v, filename)| - 1] == base[|base| - 1] == filename[|filename| - 1];
    forall uuid ensures FinalPath(v, filename) != TempPath(v, uuid) {
      assert TempPath(v, uuid)[|TempPath(v, uuid)| - 1] == ".uploading"[9];
    }
  }

  /** The metadata the handler accepts, after trimming. */
  predicate MetadataOk(m: Message) {
    m.Metadata? && Trim(m.filename) != "" && IsOnnxName(Trim(m.filename)) && Trim(m.hash) != "" && m.totalSize > 0
  }

  /** The first data chunk: two bytes or more, and a protobuf wire type that exists. */
  predicate LooksLikeOnnx(data: Bytes) {
    |data| >= 2 && data[0] % 8 != 6 && data[0] % 8 != 7
  }

  // ----- One upload -----

  /** `chunks` are the data chunks written so far, `hashed` what the hasher was given. */
  datatype Session =
    | Opening
    | Receiving(
        filename: string, size: int, hash: string, temp: string, hashed: Bytes, total: nat, validated: bool,
        chunks: seq<Bytes>)
    | Failed
    | Committed(path: string, size: int, hash: string, chunks: seq<Bytes>)

  type Files = map<string, Bytes>

  /** The handler at one point: the files and its own variables. */
  datatype Point = Point(files: Files, session: Session)

  function Abort(files: Files, temp: string): Point {
    Point(files - {temp}, Failed)
  }

  function OnOpening(v: Server, uuid: string, files: Files, e: Event): Point {
    if e.Recv? && MetadataOk(e.msg) && !e.fault then
      var temp := TempPath(v, uuid);
      Point(files[temp := []],
            Receiving(Trim(e.msg.filename), e.msg.totalSize, Trim(e.msg.hash), temp, [], 0, false, []))
    else Point(files, Failed)
  }

  function OnChunk(files: Files, s: Session, data: Bytes, fault: bool): Point
    requires s.Receiving?
  {
    if (!s.validated && !LooksLikeOnnx(data)) || fault then Abort(files, s.temp)
    else
      var sofar := if s.temp in files then files[s.temp] else [];
      Point(files[s.temp := sofar + data],
            s.(hashed := s.hashed + data, total := s.total + |data|, validated := true, chunks := s.chunks + [data]))
  }

  function OnEof(v: Server, files: Files, s: Session, fault: bool): Point
    requires s.Receiving?
  {
    if s.total != s.size || v.digest(s.hashed) != s.hash || fault then Abort(files, s.temp)
    else
      var content := if s.temp in files then files[s.temp] else [];
      var path := FinalPath(v, s.filename);
      Point((files - {s.temp})[path := content], Committed(path, s.size, s.hash, s.chunks))
  }

  function StepOf(v: Server, uuid: string, p: Point, e: Event): Point {
    match p.session
    case Opening => OnOpening(v, uuid, p.files, e)
    case Receiving(_, _, _, temp, _, _, _, _) =>
      (match e
       case Recv(Chunk(data, _), fault) => OnChunk(p.files, p.session, data, fault)
       case Recv(_, _) => Abort(p.files, temp)
       case Eof(fault) => OnEof(v, p.files, p.session, fault)
       case Broken => Abort(p.files, temp))
    case _ => p
  }

  function RunEvents(v: Server, uuid: string, p: Point, events: seq<Event>): Point
    decreases |events|
  {
    if events == [] then p else RunEvents(v, uuid, StepOf(v, uuid, p, events[0]), events[1..])
  }

  lemma {:induction false} DoneStaysDone(v: Server, uuid: string, p: Point, events: seq<Event>)
    requires p.session.Failed? || p.session.Committed?
    ensures RunEvents(v, uuid, p, events) == p
    decreases |events|
  {
    if events == [] {
    } else {
      DoneStaysDone(v, uuid, p, events[1..]);
    }
  }

  /** The next event of a stream; once the handler is done, the rest changes nothing. */
  lemma {:induction false} NextEvent(v: Server, uuid: string, p: Point, stream: seq<Event>, i: nat)
    requires i < |stream|
    ensures var q := StepOf(v, uuid, p, stream[i]);
            && RunEvents(v, uuid, p, stream[i..]) == RunEvents(v, uuid, q, stream[i + 1..])
            && (q.session.Failed? || q.session.Committed? ==> RunEvents(v, uuid, p, stream[i..]) == q)
  {
    var q := StepOf(v, uuid, p, stream[i]);
    assert stream[i..][0] == stream[i] && stream[i..][1..] == stream[i + 1..];
    if q.session.Failed? || q.session.Committed? {
      DoneStaysDone(v, uuid, q, stream[i + 1..]);
    }
  }

  class Disk {
    var files: Files

    constructor ()
      ensures files == map[]
    {
      files := map[];
    }

    /** The stream handler; a stream that ends in the events without EOF is broken. */
    method UploadModel(v: Server, uuid: string, events: seq<Event>) returns (done: Session)
      modifies this
      ensures Point(files, done) == RunEvents(v, uuid, Point(old(files), Opening), events + [Broken])
      ensures done.Failed? || done.Committed?
    {
      var stream := events + [Broken];
      var first := stream[0];
      ghost var started := StepOf(v, uuid, Point(files, Opening), first);
      if !first.Recv? || !MetadataOk(first.msg) || first.fault {
        DoneStaysDone(v, uuid, started, stream[1..]);
        return Failed;
      }
      var filename, size, hash := Trim(first.msg.filename), first.msg.totalSize, Trim(first.msg.hash);
      var temp := TempPath(v, uuid);
      files := files[temp := []];
      done := ReceiveChunks(v, uuid, filename, size, hash, temp, stream[1..]);
    }

    method ReceiveChunks(
        v: Server, uuid: string, filename: string, size: int, hash: string, temp: string, stream: seq<Event>)
      returns (done: Session)
      requires temp in files && stream != [] && stream[|stream| - 1] == Broken
      modifies this
      ensures Point(files, done) ==
                RunEvents(v, uuid, Point(old(files), Receiving(filename, size, hash, temp, [], 0, false, [])), stream)
      ensures done.Failed? || done.Committed?
    {
      var hashed: Bytes, total: nat, validated, chunks: seq<Bytes> := [], 0, false, [];
      var i := 0;
      ghost var start := Point(files, Receiving(filename, size, hash, temp, [], 0, false, []));
      while true
        invariant 0 <= i < |stream| && temp in files
        invariant RunEvents(v, uuid,
              Point(files, Receiving(filename, size, hash, temp, hashed, total, validated, chunks)), stream[i..])
               == RunEvents(v, uuid, start, stream)
        decreases |stream| - i
      {
        ghost var here := Point(files, Receiving(filename, size, hash, temp, hashed, total, validated, chunks));
        NextEvent(v, uuid, here, stream, i);
        if stream[i].Eof? {
          if total != size || v.digest(hashed) != hash || stream[i].fault {
            files := files - {temp};
            return Failed;
          }
          var path := FinalPath(v, filename);
          files := (files - {temp})[path := files[temp]];
          return Committed(path, size, hash, chunks);
        }
        if stream[i].Broken? || !stream[i].msg.Chunk? {
          files := files - {temp};
          return Failed;
        }
        var data := stream[i].msg.data;
        if !validated {
          if |data| < 2 || data[0] % 8 == 6 || data[0] % 8 == 7 {
            files := files - {temp};
            return Failed;
          }
          validated := true;
        }
        if stream[i].fault {
          files := files - {temp};
          return Failed;
        }
        files := files[temp := files[temp] + data];
        hashed, total, chunks := hashed + data, total + |data|, chunks + [data];
        i := i + 1;
      }
    }
  }

  // ----- Any interleaving -----

  /** `commits` lists the committed uploads in the order of their renames. */
  datatype State = State(files: Files, sessions: seq<Session>, uuids: seq<string>, commits: seq<nat>)

  function Initial(files: Files): State {
    State(files, [], [], [])
  }

  datatype Action = Begin(uuid: string) | Handle(upload: nat, event: Event)

  /** Upload IDs are fresh. */
  predicate Enabled(v: Server, s: State, a: Action) {
    match a
    case Begin(uuid) => uuid !in s.uuids && TempPath(v, uuid) !in s.files
    case Handle(i, _) => i < |s.sessions| == |s.uuids|
  }

  function Next(v: Server, s: State, a: Action): State
    requires Enabled(v, s, a)
  {
    match a
    case Begin(uuid) => s.(sessions := s.sessions + [Opening], uuids := s.uuids + [uuid])
    case Handle(i, e) =>
      var p := StepOf(v, s.uuids[i], Point(s.files, s.sessions[i]), e);
      s.(files := p.files, sessions := s.sessions[i := p.session],
         commits := s.commits + (if p.session.Committed? && !s.sessions[i].Committed? then [i] else []))
  }

  ghost predicate CanRun(v: Server, s: State, actions: seq<Action>)
    decreases |actions|
  {
    actions == [] || (Enabled(v, s, actions[0]) && CanRun(v, Next(v, s, actions[0]), actions[1..]))
  }

  ghost function Run(v: Server, s: State, actions: seq<Action>): State
    requires CanRun(v, s, actions)
    decreases |actions|
  {
    if actions == [] then s else Run(v, Next(v, s, actions[0]), actions[1..])
  }

  /** The content is everything one upload declared and passed. */
  ghost predicate Checked(v: Server, size: int, hash: string, chunks: seq<Bytes>) {
    var content := Concat(chunks);
    && |content| == size && v.digest(content) == hash
    && |content| >= 2 && content[0] % 8 != 6 && content[0] % 8 != 7
  }

  ghost predicate Whole(v: Server, s: Session, p: string, content: Bytes) {
    s.Committed? && s.path == p && content == Concat(s.chunks) && Checked(v, s.size, s.hash, s.chunks)
  }

  ghost predicate SessionOk(v: Server, s: State, i: nat)
    requires i < |s.sessions| == |s.uuids|
  {
    var x := s.sessions[i];
    match x
    case Opening => TempPath(v, s.uuids[i]) !in s.files
    case Receiving(filename, size, hash, temp, hashed, total, validated, chunks) =>
      && IsOnnxName(filename) && size > 0 && temp == TempPath(v, s.uuids[i])
      && temp in s.files && s.files[temp] == hashed == Concat(chunks) && total == |hashed|
      && (if validated then LooksLikeOnnx(hashed) else chunks == [])
    case Failed => TempPath(v, s.uuids[i]) !in s.files
    case Committed(path, size, hash, chunks) =>
      TempPath(v, s.uuids[i]) !in s.files && NeverTemp(v, path) && Checked(v, size, hash, chunks)
  }

  /** The last upload to be renamed to the path. */
  ghost function LastCommit(commits: seq<nat>, sessions: seq<Session>, p: string): (r: Option<nat>)
    ensures r.Some? ==> r.value in commits && r.value < |sessions|
                        && sessions[r.value].Committed? && sessions[r.value].path == p
  {
    if commits == [] then None
    else
      var i := commits[|commits| - 1];
      if i < |sessions| && sessions[i].Committed? && sessions[i].path == p then Some(i)
      else LastCommit(commits[..|commits| - 1], sessions, p)
  }

  ghost predicate Unchanged(was: Files, files: Files, p: string) {
    (p in files <==> p in was) && (p in was ==> files[p] == was[p])
  }

  /** A path no upload was renamed to is as it was; any other holds the last such upload, whole. */
  ghost predicate FileOk(v: Server, was: Files, s: State, p: string) {
    match LastCommit(s.commits, s.sessions, p)
    case None => Unchanged(was, s.files, p)
    case Some(i) => p in s.files && Whole(v, s.sessions[i], p, s.files[p])
  }

  ghost predicate CommitsOk(s: State) {
    && (forall i :: i in s.commits ==> i < |s.sessions| && s.sessions[i].Committed?)
    && (forall i :: 0 <= i < |s.sessions| && s.sessions[i].Committed? ==> i in s.commits)
  }

  ghost predicate Inv(v: Server, was: Files, s: State) {
    && |s.sessions| == |s.uuids|
    && (forall i, j :: 0 <= i < j < |s.uuids| ==> s.uuids[i] != s.uuids[j])
    && (forall i :: 0 <= i < |s.sessions| ==> SessionOk(v, s, i))
    && CommitsOk(s)
    && (forall p :: !IsTemp(v, s.uuids, p) ==> FileOk(v, was, s, p))
  }

  /** The sessions that committed are the same in both. */
  ghost predicate SameCommits(commits: seq<nat>, before: seq<Session>, after: seq<Session>) {
    forall k :: 0 <= k < |commits| ==>
      commits[k] < |before| && commits[k] < |after| && after[commits[k]] == before[commits[k]]
  }

  lemma {:induction false} LastCommitSame(commits: seq<nat>, before: seq<Session>, after: seq<Session>, p: string)
    requires SameCommits(commits, before, after)
    ensures LastCommit(commits, after, p) == LastCommit(commits, before, p)
  {
    if commits == [] {
    } else {
      LastCommitSame(commits[..|commits| - 1], before, after, p);
    }
  }

  lemma {:induction false} LastCommitOneMore(commits: seq<nat>, sessions: seq<Session>, i: nat, p: string)
    requires i < |sessions|
    ensures LastCommit(commits + [i], sessions, p)
         == if sessions[i].Committed? && sessions[i].path == p then Some(i) else LastCommit(commits, sessions, p)
  {
    assert (commits + [i])[..|commits + [i]| - 1] == commits;
  }

  /** Every committed upload's path has a last upload renamed to it. */
  lemma {:induction false} CommittedHasLast(commits: seq<nat>, sessions: seq<Session>, i: nat)
    requires i in commits && i < |sessions| && sessions[i].Committed?
    ensures LastCommit(commits, sessions, sessions[i].path).Some?
  {
    var rest, last := commits[..|commits| - 1], commits[|commits| - 1];
    assert commits == rest + [last];
    if last != i {
      CommittedHasLast(rest, sessions, i);
    }
  }

  lemma {:induction false} TempsApart(v: Server, a: string, b: string)
    requires a != b
    ensures TempPath(v, a) != TempPath(v, b)
  {
    var head, tail := v.dir + "/", ".uploading";
    assert TempPath(v, a)[|head|..|TempPath(v, a)| - |tail|] == a;
    assert TempPath(v, b)[|head|..|TempPath(v, b)| - |tail|] == b;
  }

  /** A step touches only its own temporary file and, on commit, its final path. */
  lemma {:induction false} StepFrame(v: Server, uuid: string, p: Point, e: Event, path: string)
    requires p.session.Receiving? ==> p.session.temp == TempPath(v, uuid) && IsOnnxName(p.session.filename)
    requires path != TempPath(v, uuid)
    ensures var q := StepOf(v, uuid, p, e);
            || ((path in q.files <==> path in p.files) && (path in p.files ==> q.files[path] == p.files[path]))
            || (p.session.Receiving? && q.session.Committed? && path == q.session.path)
  {
  }

  /** The upload has touched nothing but its temporary file. */
  ghost predicate Clean(v: Server, uuid: string, was: Files, p: Point) {
    match p.session
    case Opening => p.files == was
    case Receiving(_, _, _, temp, _, _, _, _) => temp == TempPath(v, uuid) && p.files - {temp} == was
    case Failed => p.files == was
    case Committed(_, _, _, _) => true
  }

  lemma {:induction false} CleanRun(v: Server, uuid: string, was: Files, p: Point, events: seq<Event>)
    requires TempPath(v, uuid) !in was && Clean(v, uuid, was, p)
    ensures Clean(v, uuid, was, RunEvents(v, uuid, p, events))
    decreases |events|
  {
    if events == [] {
    } else {
      CleanRun(v, uuid, was, StepOf(v, uuid, p, events[0]), events[1..]);
    }
  }

  /**
   * Whatever the client sends and wherever the file system or the stream fails: an upload that
   * ends without its rename leaves the files exactly as they were, its temporary file included.
   */
  lemma {:induction false} FailureLeavesNothing(v: Server, uuid: string, files: Files, events: seq<Event>)
    requires TempPath(v, uuid) !in files
    ensures var q := RunEvents(v, uuid, Point(files, Opening), events);
            q.session.Failed? ==> q.files == files
  {
    CleanRun(v, uuid, files, Point(files, Opening), events);
  }

  lemma {:induction false} ChunkKeeps(v: Server, s: State, i: nat, data: Bytes, offset: int, fault: bool)
    requires |s.sessions| == |s.uuids| && i < |s.sessions| && s.sessions[i].Receiving? && SessionOk(v, s, i)
    ensures SessionOk(v, Next(v, s, Handle(i, Recv(Chunk(data, offset), fault))), i)
  {
    ConcatOneMore(s.sessions[i].chunks, data);
  }

  lemma {:induction false} EofKeeps(v: Server, s: State, i: nat, fault: bool)
    requires |s.sessions| == |s.uuids| && i < |s.sessions| && s.sessions[i].Receiving? && SessionOk(v, s, i)
    ensures SessionOk(v, Next(v, s, Handle(i, Eof(fault))), i)
    ensures var t := Next(v, s, Handle(i, Eof(fault)));
            t.sessions[i].Committed? ==> t.sessions[i].path in t.files
                                         && Whole(v, t.sessions[i], t.sessions[i].path, t.files[t.sessions[i].path])
  {
    PathsApart(v, s.sessions[i].filename);
  }

  lemma {:induction false} HandleKeepsOwn(v: Server, s: State, i: nat, e: Event)
    requires |s.sessions| == |s.uuids| && i < |s.sessions| && SessionOk(v, s, i)
    ensures SessionOk(v, Next(v, s, Handle(i, e)), i)
    ensures var t := Next(v, s, Handle(i, e));
            s.sessions[i].Receiving? && t.sessions[i].Committed? ==>
              t.sessions[i].path in t.files && Whole(v, t.sessions[i], t.sessions[i].path, t.files[t.sessions[i].path])
  {
    if s.sessions[i].Receiving? {
      match e
      case Recv(Chunk(data, offset), fault) => ChunkKeeps(v, s, i, data, offset, fault);
      case Eof(fault) => EofKeeps(v, s, i, fault);
      case _ =>
    }
  }

  lemma {:induction false} HandleKeepsOthers(v: Server, s: State, i: nat, e: Event, j: nat)
    requires |s.sessions| == |s.uuids| && i < |s.sessions| && j < |s.sessions| && i != j
    requires s.uuids[i] != s.uuids[j] && SessionOk(v, s, i) && SessionOk(v, s, j)
    ensures SessionOk(v, Next(v, s, Handle(i, e)), j)
  {
    var t, path := Next(v, s, Handle(i, e)), TempPath(v, s.uuids[j]);
    TempsApart(v, s.uuids[i], s.uuids[j]);
    StepFrame(v, s.uuids[i], Point(s.files, s.sessions[i]), e, path);
    HandleKeepsOwn(v, s, i, e);
    if s.sessions[i].Receiving? {
      PathsApart(v, s.sessions[i].filename);
    }
    assert t.sessions[j] == s.sessions[j];
  }

  lemma {:induction false} HandleKeepsCommits(v: Server, s: State, i: nat, e: Event)
    requires |s.sessions| == |s.uuids| && i < |s.sessions| && CommitsOk(s)
    ensures CommitsOk(Next(v, s, Handle(i, e)))
    ensures SameCommits(s.commits, s.sessions, Next(v, s, Handle(i, e)).sessions)
  {
    assert forall k :: 0 <= k < |s.commits| ==> s.commits[k] in s.commits;
  }

  lemma {:induction false} SameFileOk(v: Server, was: Files, s: State, t: State, p: string)
    requires FileOk(v, was, s, p) && Unchanged(s.files, t.files, p)
    requires LastCommit(t.commits, t.sessions, p) == LastCommit(s.commits, s.sessions, p)
    requires SameCommits(s.commits, s.sessions, t.sessions)
    ensures FileOk(v, was, t, p)
  {
    var last := LastCommit(s.commits, s.sessions, p);
    if last.Some? {
      var k :| 0 <= k < |s.commits| && s.commits[k] == last.value;
      assert t.sessions[last.value] == s.sessions[last.value];
    }
  }

  /** The upload's step renames its file to the path. */
  predicate RenamesTo(s: State, t: State, i: nat, p: string)
    requires i < |s.sessions| && i < |t.sessions|
  {
    s.sessions[i].Receiving? && t.sessions[i].Committed? && t.sessions[i].path == p
  }

  lemma {:induction false} HandleFrame(v: Server, s: State, i: nat, e: Event, p: string)
    requires |s.sessions| == |s.uuids| && i < |s.sessions| && SessionOk(v, s, i) && !IsTemp(v, s.uuids, p)
    ensures var t := Next(v, s, Handle(i, e)); Unchanged(s.files, t.files, p) || RenamesTo(s, t, i, p)
  {
    StepFrame(v, s.uuids[i], Point(s.files, s.sessions[i]), e, p);
  }

  lemma {:induction false} StepCommits(v: Server, uuid: string, p: Point, e: Event)
    ensures StepOf(v, uuid, p, e).session.Committed? ==> p.session.Committed? || p.session.Receiving?
    ensures p.session.Committed? ==> StepOf(v, uuid, p, e) == p
  {
  }

  lemma {:induction false} HandleLastCommit(v: Server, s: State, i: nat, e: Event, p: string)
    requires |s.sessions| == |s.uuids| && i < |s.sessions| && CommitsOk(s)
    ensures var t := Next(v, s, Handle(i, e));
            LastCommit(t.commits, t.sessions, p)
            == if RenamesTo(s, t, i, p) then Some(i) else LastCommit(s.commits, s.sessions, p)
  {
    var t := Next(v, s, Handle(i, e));
    StepCommits(v, s.uuids[i], Point(s.files, s.sessions[i]), e);
    var renamed := t.sessions[i].Committed? && !s.sessions[i].Committed?;
    assert t.commits == s.commits + (if renamed then [i] else []);
    HandleKeepsCommits(v, s, i, e);
    LastCommitSame(s.commits, s.sessions, t.sessions, p);
    if renamed {
      LastCommitOneMore(s.commits, t.sessions, i, p);
    } else {
      assert t.commits == s.commits;
    }
  }

  lemma {:induction false} HandleKeepsFile(v: Server, was: Files, s: State, i: nat, e: Event, p: string)
    requires |s.sessions| == |s.uuids| && i < |s.sessions| && SessionOk(v, s, i) && CommitsOk(s)
    requires !IsTemp(v, s.uuids, p) && FileOk(v, was, s, p)
    ensures FileOk(v, was, Next(v, s, Handle(i, e)), p)
  {
    var t := Next(v, s, Handle(i, e));
    HandleFrame(v, s, i, e, p);
    HandleLastCommit(v, s, i, e, p);
    if RenamesTo(s, t, i, p) {
      HandleKeepsOwn(v, s, i, e);
    } else {
      HandleKeepsCommits(v, s, i, e);
      SameFileOk(v, was, s, t, p);
    }
  }

  lemma {:induction false} MoreTemps(v: Server, uuids: seq<string>, uuid: string, p: string)
    requires IsTemp(v, uuids, p)
    ensures IsTemp(v, uuids + [uuid], p)
  {
    var i :| 0 <= i < |uuids| && p == TempPath(v, uuids[i]);
    assert (uuids + [uuid])[i] == uuids[i];
  }

  lemma {:induction false} BeginKeeps(v: Server, was: Files, s: State, uuid: string)
    requires Inv(v, was, s) && Enabled(v, s, Begin(uuid))
    ensures Inv(v, was, Next(v, s, Begin(uuid)))
  {
    var t := Next(v, s, Begin(uuid));
    forall i | 0 <= i < |t.sessions| ensures SessionOk(v, t, i) {
      assert i < |s.sessions| ==>
        SessionOk(v, s, i) && t.sessions[i] == s.sessions[i] && t.uuids[i] == s.uuids[i];
    }
    forall p | !IsTemp(v, t.uuids, p) ensures FileOk(v, was, t, p) {
      if IsTemp(v, s.uuids, p) {
        MoreTemps(v, s.uuids, uuid, p);
      }
      assert forall k :: 0 <= k < |s.commits| ==> s.commits[k] in s.commits;
      LastCommitSame(s.commits, s.sessions, t.sessions, p);
      SameFileOk(v, was, s, t, p);
    }
  }

  lemma {:induction false} NextKeeps(v: Server, was: Files, s: State, a: Action)
    requires Inv(v, was, s) && Enabled(v, s, a)
    ensures Inv(v, was, Next(v, s, a))
  {
    match a
    case Begin(uuid) => BeginKeeps(v, was, s, uuid);
    case Handle(i, e) =>
      var t := Next(v, s, a);
      forall j | 0 <= j < |t.sessions| ensures SessionOk(v, t, j) {
        assert SessionOk(v, s, i) && SessionOk(v, s, j);
        if j == i {
          HandleKeepsOwn(v, s, i, e);
        } else {
          assert s.uuids[i] != s.uuids[j];
          HandleKeepsOthers(v, s, i, e, j);
        }
      }
      HandleKeepsCommits(v, s, i, e);
      forall p | !IsTemp(v, t.uuids, p) ensures FileOk(v, was, t, p) {
        HandleKeepsFile(v, was, s, i, e, p);
      }
  }

  lemma {:induction false} RunKeeps(v: Server, was: Files, s: State, actions: seq<Action>)
    requires Inv(v, was, s) && CanRun(v, s, actions)
    ensures Inv(v, was, Run(v, s, actions))
    decreases |actions|
  {
    if actions == [] {
    } else {
      NextKeeps(v, was, s, actions[0]);
      RunKeeps(v, was, Next(v, s, actions[0]), actions[1..]);
    }
  }

  /**
   * Over any interleaving of uploads, a path other than their own temporary files to which no
   * upload was renamed is as it was before; every other holds the full content of the last upload
   * renamed to it, of the declared size and digest, at least two bytes long and starting like an
   * ONNX model.
   */
  lemma {:induction false} CommittedUploads(v: Server, was: Files, actions: seq<Action>, p: string)
    requires CanRun(v, Initial(was), actions) && !IsTemp(v, Run(v, Initial(was), actions).uuids, p)
    ensures FileOk(v, was, Run(v, Initial(was), actions), p)
  {
    assert Inv(v, was, Initial(was));
    RunKeeps(v, was, Initial(was), actions);
  }

  /** In particular every committed upload's file is there, holding some committed upload whole. */
  lemma {:induction false} CommittedFileExists(v: Server, was: Files, actions: seq<Action>, i: nat)
    requires CanRun(v, Initial(was), actions)
    requires i < |Run(v, Initial(was), actions).sessions| && Run(v, Initial(was), actions).sessions[i].Committed?
    ensures var s := Run(v, Initial(was), actions);
            var p := s.sessions[i].path;
            var last := LastCommit(s.commits, s.sessions, p);
            last.Some? && p in s.files && Whole(v, s.sessions[last.value], p, s.files[p])
  {
    assert Inv(v, was, Initial(was));
    RunKeeps(v, was, Initial(was), actions);
    var s := Run(v, Initial(was), actions);
    assert SessionOk(v, s, i);
    CommittedHasLast(s.commits, s.sessions, i);
    assert FileOk(v, was, s, s.sessions[i].path);
  }

  /** Only an upload that is receiving has a temporary file. */
  lemma {:induction false} TempsAreReceiving(v: Server, was: Files, actions: seq<Action>, i: nat)
    requires CanRun(v, Initial(was), actions) && i < |Run(v, Initial(was), actions).sessions|
    ensures var s := Run(v, Initial(was), actions);
            |s.uuids| == |s.sessions| && (TempPath(v, s.uuids[i]) in s.files <==> s.sessions[i].Receiving?)
  {
    assert Inv(v, was, Initial(was));
    RunKeeps(v, was, Initial(was), actions);
    assert SessionOk(v, Run(v, Initial(was), actions), i);
  }

  // ----- The client and the round trip -----

  /** Non-empty chunks with contiguous offsets that make up the file. */
  ghost predicate Chunks(file: Bytes, msgs: seq<Message>) {
    && (forall i :: 0 <= i < |msgs| ==> msgs[i].Chunk? && 0 < |msgs[i].data| <= CHUNK_SIZE)
    && (forall i :: 0 <= i < |msgs| ==> msgs[i].offset == |Sent(msgs[..i])|)
    && Sent(msgs) == file
  }

  /** The data of the chunk messages, end to end. */
  function Sent(msgs: seq<Message>): Bytes {
    if msgs == [] then []
    else
      var last := msgs[|msgs| - 1];
      Sent(msgs[..|msgs| - 1]) + if last.Chunk? then last.data else []
  }

  /** What one turn of the client's loop meets: a read of some length, or a failure. */
  datatype Turn = Reads(n: nat) | ReadFails | SendFails

  /** Each chunk is what its turn read. */
  ghost predicate AsRead(file: Bytes, msgs: seq<Message>, turns: nat -> Turn) {
    forall i :: 0 <= i < |msgs| ==>
      && turns(i).Reads? && msgs[i].Chunk? && 0 <= msgs[i].offset < |file|
      && |msgs[i].data| == ReadSize(turns(i).n, |file| - msgs[i].offset, 2097152)
  }

  lemma {:induction false} AsReadOneMore(file: Bytes, msgs: seq<Message>, c: Message, turns: nat -> Turn)
    requires AsRead(file, msgs, turns) && turns(|msgs|).Reads? && c.Chunk? && 0 <= c.offset < |file|
    requires |c.data| == ReadSize(turns(|msgs|).n, |file| - c.offset, 2097152)
    ensures AsRead(file, msgs + [c], turns)
  {
  }

  /** The client's read loop: reads may be short, and may fail; it ends early only at a failure. */
  method SendChunks(file: Bytes, turns: nat -> Turn) returns (msgs: seq<Message>, r: Result<()>)
    ensures r.Ok? ==> Chunks(file, msgs)
    ensures r.Err? ==> exists k :: 0 <= k < |file| && Chunks(file[..k], msgs)
    ensures r.Err? ==> !turns(|msgs|).Reads?
    ensures AsRead(file, msgs, turns)
  {
    msgs := [];
    var offset := 0;
    while offset < |file|
      invariant 0 <= offset <= |file| && Chunks(file[..offset], msgs)
      invariant AsRead(file, msgs, turns)
    {
      var turn := turns(|msgs|);
      if !turn.Reads? {
        return msgs, Err;
      }
      var n := ReadSize(turn.n, |file| - offset, CHUNK_SIZE);
      var c := Chunk(file[offset..offset + n], offset);
      ChunksOneMore(file, offset, n, msgs);
      AsReadOneMore(file, msgs, c, turns);
      msgs := msgs + [c];
      offset := offset + n;
    }
    assert file[..offset] == file;
    return msgs, Ok(());
  }

  lemma {:induction false} SentOneMore(msgs: seq<Message>, c: Message)
    requires c.Chunk?
    ensures Sent(msgs + [c]) == Sent(msgs) + c.data
  {
    assert (msgs + [c])[..|msgs + [c]| - 1] == msgs;
  }

  lemma {:induction false} ChunksOneMore(file: Bytes, offset: nat, n: nat, msgs: seq<Message>)
    requires 0 < n <= CHUNK_SIZE && offset + n <= |file| && Chunks(file[..offset], msgs)
    ensures Chunks(file[..offset + n], msgs + [Chunk(file[offset..offset + n], offset)])
  {
    var c := Chunk(file[offset..offset + n], offset);
    var t := msgs + [c];
    SentOneMore(msgs, c);
    assert Sent(t) == file[..offset + n] by {
      SlicesJoin(file, 0, offset, offset + n);
    }
    forall i | 0 <= i < |t| ensures t[i].Chunk? && t[i].offset == |Sent(t[..i])| {
      assert t[..i] == msgs[..i];
      assert i == |msgs| ==> msgs[..i] == msgs;
    }
  }

  function ReceiveAll(msgs: seq<Message>): (r: seq<Event>)
    ensures |r| == |msgs|
  {
    seq(|msgs|, i requires 0 <= i < |msgs| => Recv(msgs[i], false))
  }

  /** The digest is a non-empty word without spaces, as hexadecimal text is. */
  ghost predicate WordDigest(v: Server) {
    forall b :: Trim(v.digest(b)) == v.digest(b) != ""
  }

  /** The stream a client sends for a file. */
  function ClientStream(v: Server, filename: string, file: Bytes, msgs: seq<Message>): seq<Event> {
    [Recv(Metadata(filename, |file|, v.digest(file)), false)] + ReceiveAll(msgs) + [Eof(false)]
  }

  lemma {:induction false} RunConcat(v: Server, uuid: string, p: Point, a: seq<Event>, b: seq<Event>)
    ensures RunEvents(v, uuid, p, a + b) == RunEvents(v, uuid, RunEvents(v, uuid, p, a), b)
    decreases |a|
  {
    if a == [] {
      assert a + b == b;
    } else {
      assert (a + b)[1..] == a[1..] + b;
      RunConcat(v, uuid, StepOf(v, uuid, p, a[0]), a[1..], b);
    }
  }

  /** A handler that has accepted the chunks of `data` so far. */
  ghost predicate Holding(p: Point, filename: string, size: int, hash: string, temp: string, data: Bytes) {
    && p.session.Receiving? && p.session.filename == filename && p.session.size == size && p.session.hash == hash
    && p.session.temp == temp && p.session.hashed == data && p.session.total == |data|
    && temp in p.files && p.files[temp] == data
  }

  /** After the first chunk is accepted, any further chunks are taken as they come. */
  lemma {:induction false} ChunksAreTaken(
      v: Server, uuid: string, p: Point, filename: string, size: int, hash: string, temp: string, data: Bytes,
      msgs: seq<Message>)
    requires Holding(p, filename, size, hash, temp, data)
          && (p.session.validated || (msgs != [] && msgs[0].Chunk? && LooksLikeOnnx(msgs[0].data)))
    requires forall i :: 0 <= i < |msgs| ==> msgs[i].Chunk?
    ensures var q := RunEvents(v, uuid, p, ReceiveAll(msgs));
            Holding(q, filename, size, hash, temp, data + Sent(msgs)) && q.session.validated
            && q.files - {temp} == p.files - {temp}
    decreases |msgs|
  {
    if msgs == [] {
      assert data + Sent(msgs) == data;
    } else {
      var init, last := msgs[..|msgs| - 1], msgs[|msgs| - 1];
      var e := Recv(last, false);
      assert ReceiveAll(msgs) == ReceiveAll(init) + [e];
      RunConcat(v, uuid, p, ReceiveAll(init), [e]);
      var m := RunEvents(v, uuid, p, ReceiveAll(init));
      assert RunEvents(v, uuid, m, [e]) == RunEvents(v, uuid, StepOf(v, uuid, m, e), [e][1..]) == StepOf(v, uuid, m, e);
      if init == [] {
        assert m == p;
        assert data + Sent(init) == data;
      } else {
        ChunksAreTaken(v, uuid, p, filename, size, hash, temp, data, init);
      }
      assert data + Sent(init) + last.data == data + Sent(msgs);
      TakeOne(v, uuid, m, filename, size, hash, temp, data + Sent(init), last);
    }
  }

  lemma {:induction false} TakeOne(
      v: Server, uuid: string, p: Point, filename: string, size: int, hash: string, temp: string, data: Bytes,
      c: Message)
    requires Holding(p, filename, size, hash, temp, data) && c.Chunk? && (p.session.validated || LooksLikeOnnx(c.data))
    ensures var q := StepOf(v, uuid, p, Recv(c, false));
            && Holding(q, filename, size, hash, temp, data + c.data) && q.session.validated
            && q.files - {temp} == p.files - {temp}
  {
  }

  lemma {:induction false} SentStartsWithFirst(msgs: seq<Message>)
    requires msgs != [] && forall i :: 0 <= i < |msgs| ==> msgs[i].Chunk? && |msgs[i].data| > 0
    ensures msgs[0].data <= Sent(msgs)
  {
    if |msgs| > 1 {
      SentStartsWithFirst(msgs[..|msgs| - 1]);
    } else {
      assert msgs[..|msgs| - 1] == [];
    }
  }

  /** What a client must meet for its upload to be stored; the first message may be a short read. */
  ghost predicate Uploadable(filename: string, file: Bytes, msgs: seq<Message>) {
    Trim(filename) != "" && IsOnnxName(Trim(filename)) && msgs != [] && msgs[0].Chunk? && |msgs[0].data| >= 2
    && file != [] && file[0] % 8 != 6 && file[0] % 8 != 7
  }

  /**
   * For every way the client loop may chunk a file, the server stores exactly the client's
   * bytes if and only if the name and the first chunk pass the checks; otherwise it leaves the
   * directory as it was.
   */
  lemma {:induction false} UploadRoundTrip(
      v: Server, uuid: string, files: Files, filename: string, file: Bytes, msgs: seq<Message>)
    requires WordDigest(v) && Chunks(file, msgs) && TempPath(v, uuid) !in files
    ensures var q := RunEvents(v, uuid, Point(files, Opening), ClientStream(v, filename, file, msgs));
            if Uploadable(filename, file, msgs)
            then && q.session.Committed? && q.session.path == FinalPath(v, Trim(filename))
                 && q.files == files[FinalPath(v, Trim(filename)) := file]
            else q == Point(files, Failed)
  {
    var p := Point(files, Opening);
    var meta := Recv(Metadata(filename, |file|, v.digest(file)), false);
    var stream := ClientStream(v, filename, file, msgs);
    assert stream[0] == meta && stream[1..] == ReceiveAll(msgs) + [Eof(false)];
    var started := StepOf(v, uuid, p, meta);
    assert RunEvents(v, uuid, p, stream) == RunEvents(v, uuid, started, stream[1..]);
    if started.session.Failed? {
      DoneStaysDone(v, uuid, started, stream[1..]);
      EmptyFileHasNoChunks(file, msgs);
    } else {
      EmptyFileHasNoChunks(file, msgs);
      RunConcat(v, uuid, started, ReceiveAll(msgs), [Eof(false)]);
      SentStartsWithFirst(msgs);
      assert msgs[0].data[0] == file[0];
      if LooksLikeOnnx(msgs[0].data) {
        AcceptedUpload(v, uuid, files, started, Trim(filename), file, msgs);
      } else {
        RejectedUpload(v, uuid, files, started, msgs);
      }
    }
  }

  lemma {:induction false} EmptyFileHasNoChunks(file: Bytes, msgs: seq<Message>)
    requires Chunks(file, msgs)
    ensures file == [] <==> msgs == []
  {
    if msgs != [] {
      SentStartsWithFirst(msgs);
    }
  }

  lemma {:induction false} AcceptedUpload(
      v: Server, uuid: string, files: Files, started: Point, name: string, file: Bytes, msgs: seq<Message>)
    requires WordDigest(v) && Chunks(file, msgs) && TempPath(v, uuid) !in files && IsOnnxName(name)
    requires msgs != [] && LooksLikeOnnx(msgs[0].data)
    requires started == Point(files[TempPath(v, uuid) := []],
          Receiving(name, |file|, v.digest(file), TempPath(v, uuid), [], 0, false, []))
    ensures var q := RunEvents(v, uuid, RunEvents(v, uuid, started, ReceiveAll(msgs)), [Eof(false)]);
            && q.session.Committed? && q.session.path == FinalPath(v, name)
            && q.files == files[FinalPath(v, name) := file]
  {
    var temp := TempPath(v, uuid);
    ChunksAreTaken(v, uuid, started, name, |file|, v.digest(file), temp, [], msgs);
    assert [] + Sent(msgs) == file;
    var m := RunEvents(v, uuid, started, ReceiveAll(msgs));
    PathsApart(v, name);
    assert m.files - {temp} == files;
    var e := Eof(false);
    assert RunEvents(v, uuid, m, [e]) == RunEvents(v, uuid, StepOf(v, uuid, m, e), [e][1..]) == StepOf(v, uuid, m, e);
  }

  lemma {:induction false} RejectedUpload(v: Server, uuid: string, files: Files, started: Point, msgs: seq<Message>)
    requires TempPath(v, uuid) !in files
    requires msgs != [] && msgs[0].Chunk? && !LooksLikeOnnx(msgs[0].data)
    requires started.files == files[TempPath(v, uuid) := []] && started.session.Receiving? && !started.session.validated
    requires started.session.temp == TempPath(v, uuid)
    ensures RunEvents(v, uuid, RunEvents(v, uuid, started, ReceiveAll(msgs)), [Eof(false)]) == Point(files, Failed)
  {
    var events := ReceiveAll(msgs);
    var first := StepOf(v, uuid, started, events[0]);
    assert first == Abort(started.files, TempPath(v, uuid));
    assert first.files == files;
    assert RunEvents(v, uuid, started, events) == RunEvents(v, uuid, first, events[1..]);
    DoneStaysDone(v, uuid, first, events[1..]);
    DoneStaysDone(v, uuid, first, [Eof(false)]);
  }

  lemma {:induction false} SameEnding(a: string, name: string)
    requires |name| >= 5
    ensures IsOnnxName(a + name) <==> IsOnnxName(name)
  {
    var s := a + name;
    assert s[|s| - 5] == name[|name| - 5] && s[|s| - 4] == name[|name| - 4] && s[|s| - 3] == name[|name| - 3];
    assert s[|s| - 2] == name[|name| - 2] && s[|s| - 1] == name[|name| - 1];
  }

  /** What the client of `UploadRoundTrip` must meet, in text. */
  predicate GoodUpload(name: string, file: Bytes, msgs: seq<Message>) {
    && '/' !in name && |name| >= 5 && name[|name| - 5] == '.' && name[|name| - 4] in {'o', 'O'}
    && name[|name| - 3] in {'n', 'N'} && name[|name| - 2] in {'n', 'N'} && name[|name| - 1] in {'x', 'X'}
    && msgs != [] && msgs[0].Chunk? && |msgs[0].data| >= 2
    && file != [] && file[0] % 8 != 6 && file[0] % 8 != 7
  }

  /**
   * A good upload is stored in the model directory under the last part of its trimmed file name,
   * and nothing else changes.
   */
  lemma {:induction false} StoredUnderName(
      v: Server, uuid: string, files: Files, filename: string, d: string, name: string, file: Bytes, msgs: seq<Message>)
    requires WordDigest(v) && Chunks(file, msgs) && v.dir + "/" + uuid + ".uploading" !in files
    requires Trim(filename) == name || Trim(filename) == d + "/" + name
    requires GoodUpload(name, file, msgs)
    ensures var q := RunEvents(v, uuid, Point(files, Opening), ClientStream(v, filename, file, msgs));
            && q.session.Committed? && q.session.path == v.dir + "/" + name
            && q.files == files[v.dir + "/" + name := file]
  {
    PathText(v, d, name, uuid);
    SameEnding(d + "/", name);
    UploadRoundTrip(v, uuid, files, filename, file, msgs);
  }

  /** Good uploads of different names never share a path. */
  lemma {:induction false} DifferentNamesApart(v: Server, a: string, b: string)
    requires '/' !in a && '/' !in b && a != b
    ensures FinalPath(v, a) != FinalPath(v, b)
  {
    PathText(v, "", a, "");
    PathText(v, "", b, "");
    assert FinalPath(v, a)[|v.dir + "/"|..] == a && FinalPath(v, b)[|v.dir + "/"|..] == b;
  }

  /** The first message is accepted exactly if it is complete metadata for an ONNX file. */
  lemma {:induction false} FirstMessage(v: Server, uuid: string, files: Files, e: Event)
    ensures var q := StepOf(v, uuid, Point(files, Opening), e);
            if && e.Recv? && !e.fault && e.msg.Metadata? && IsOnnxName(Trim(e.msg.filename))
               && Trim(e.msg.hash) != "" && e.msg.totalSize > 0
            then && q.session.Receiving? && q.session.filename == Trim(e.msg.filename)
                 && q.session.size == e.msg.totalSize && q.session.hash == Trim(e.msg.hash)
                 && q.files == files[v.dir + "/" + uuid + ".uploading" := []]
            else q == Point(files, Failed)
  {
  }

  lemma {:induction false} OneChunk(file: Bytes)
    requires 0 < |file| <= CHUNK_SIZE
    ensures Chunks(file, [Chunk(file, 0)])
  {
    var c := Chunk(file, 0);
    SentOneMore([], c);
    assert [] + [c] == [c];
    assert Sent([c]) == file;
    assert [c][..0] == [];
  }

  lemma {:induction false} TwoChunks(file: Bytes)
    requires 1 < |file| <= CHUNK_SIZE
    ensures Chunks(file, [Chunk(file[..1], 0), Chunk(file[1..], 1)])
  {
    var n := |file| - 1;
    OneChunk(file[..1]);
    ChunksOneMore(file, 1, n, [Chunk(file[..1], 0)]);
    assert file[1..1 + n] == file[1..] && file[..1 + n] == file;
    assert [Chunk(file[..1], 0)] + [Chunk(file[1..], 1)] == [Chunk(file[..1], 0), Chunk(file[1..], 1)];
  }

  /**
   * A short first read is enough to lose a good file: sent in one chunk it is stored, sent with a
   * first chunk of one byte it is refused.
   */
  lemma {:induction false} ShortFirstReadIsRefused(
    v: Server, uuid: string, files: Files, filename: string, file: Bytes)
    requires WordDigest(v) && TempPath(v, uuid) !in files
    requires Trim(filename) != "" && IsOnnxName(Trim(filename)) && LooksLikeOnnx(file) && |file| <= CHUNK_SIZE
    ensures var one, two := [Chunk(file, 0)], [Chunk(file[..1], 0), Chunk(file[1..], 1)];
            && Chunks(file, one) && Chunks(file, two)
            && RunEvents(v, uuid, Point(files, Opening), ClientStream(v, filename, file, one))
                 .files == files[FinalPath(v, Trim(filename)) := file]
            && RunEvents(v, uuid, Point(files, Opening), ClientStream(v, filename, file, two)) == Point(files, Failed)
  {
    OneChunk(file);
    TwoChunks(file);
    UploadRoundTrip(v, uuid, files, filename, file, [Chunk(file, 0)]);
    UploadRoundTrip(v, uuid, files, filename, file, [Chunk(file[..1], 0), Chunk(file[1..], 1)]);
  }
}
