/** Values shared by the agent and the control plane. */
module Types {

  datatype Option<+T> = None | Some(value: T)

  type byte = b: int | 0 <= b < 256

  type Bytes = seq<byte>

  /** A Go `(value, error)` pair; the error text is not modelled. */
  datatype Result<+T> = Ok(value: T) | Err

  /** One entry of the endpoint table that heartbeats carry to the agents. */
  datatype EndpointDetail = EndpointDetail(
    nodeId: string,
    replicaId: string,
    ip: string,
    port: int,
    healthy: bool,
    weight: real)

  /** The endpoints of one model. */
  datatype ServiceEndpoints = ServiceEndpoints(modelId: string, endpoints: seq<EndpointDetail>)

  /** Number of occurrences of `x` in `s`. */
  function Count<T(==)>(s: seq<T>, x: T): nat {
    if s == [] then 0 else (if s[0] == x then 1 else 0) + Count(s[1..], x)
  }

  lemma {:induction false} CountConcat<T>(a: seq<T>, b: seq<T>, x: T)
    ensures Count(a + b, x) == Count(a, x) + Count(b, x)
  {
    if a == [] {
      assert a + b == b;
    } else {
      assert (a + b)[1..] == a[1..] + b;
      CountConcat(a[1..], b, x);
    }
  }

  lemma {:induction false} CountOne<T>(y: T, x: T)
    ensures Count([y], x) == if y == x then 1 else 0
  {
    assert [y][1..] == [];
  }

  lemma {:induction false} SliceOfSlice(s: Bytes, a: nat, b: nat, p: nat, q: nat)
    requires a <= b <= |s| && p <= q <= b - a
    ensures s[a..b][p..q] == s[a + p..a + q]
  {
    assert forall i :: 0 <= i < q - p ==> s[a..b][p..q][i] == s[a + p..a + q][i];
  }

  lemma {:induction false} SlicesJoin(s: Bytes, a: nat, b: nat, c: nat)
    requires a <= b <= c <= |s|
    ensures s[a..b] + s[b..c] == s[a..c]
  {
  }

  lemma {:induction false} SubsetSize<T>(a: set<T>, b: set<T>)
    requires a <= b
    ensures |a| <= |b| && (|a| == |b| <==> a == b)
  {
    assert b == a + (b - a);
    assert |b| == |a| + |b - a|;
  }

  /** The chunks end to end. */
  function Concat(chunks: seq<Bytes>): Bytes {
    if chunks == [] then [] else Concat(chunks[..|chunks| - 1]) + chunks[|chunks| - 1]
  }

  lemma {:induction false} ConcatOneMore(chunks: seq<Bytes>, b: Bytes)
    ensures Concat(chunks + [b]) == Concat(chunks) + b
  {
    assert (chunks + [b])[..|chunks + [b]| - 1] == chunks;
  }

  lemma {:induction false} ConcatBoth(a: seq<Bytes>, b: seq<Bytes>)
    ensures Concat(a + b) == Concat(a) + Concat(b)
  {
    if b == [] {
      assert a + b == a;
    } else {
      var last := |b| - 1;
      assert (a + b)[..|a + b| - 1] == a + b[..last] && (a + b)[|a + b| - 1] == b[last];
      ConcatBoth(a, b[..last]);
      assert Concat(a) + (Concat(b[..last]) + b[last]) == (Concat(a) + Concat(b[..last])) + b[last];
    }
  }

  /** How much a read gives that has `left` bytes before it and may be short. */
  function ReadSize(n: nat, left: nat, buffer: nat): nat
    requires left > 0 && buffer > 0
  {
    var most := if left < buffer then left else buffer;
    if n < 1 then 1 else if n < most then n else most
  }

  /** A full read fills the buffer or takes all that is left; a short one gives what it says. */
  lemma {:induction false} ReadSizeIs(n: nat, left: nat, buffer: nat)
    requires left > 0 && buffer > 0
    ensures n >= buffer ==> ReadSize(n, left, buffer) == if left < buffer then left else buffer
    ensures 0 < n <= left && n <= buffer ==> ReadSize(n, left, buffer) == n
    ensures 0 < ReadSize(n, left, buffer) <= left
  {
  }

  // ----- Arithmetic -----

  lemma {:induction false} TimesMonotone(a: nat, b: nat, n: nat)
    requires a <= b
    ensures a * n <= b * n
    decreases b - a
  {
    if a == b {
    } else {
      TimesMonotone(a, b - 1, n);
      assert b * n == (b - 1) * n + n;
    }
  }

  lemma {:induction false} DivModIs(a: int, n: nat, q: int, r: int)
    requires 0 <= r < n && a == n * q + r
    ensures a / n == q && a % n == r
  {
    var d := a / n - q;
    assert a == n * (a / n) + a % n;
    assert n * d == n * (a / n) - n * q;
    NoMultipleBetween(n, d);
  }

  lemma {:induction false} NoMultipleBetween(n: int, d: int)
    requires n >= 0
    ensures -n < n * d < n ==> d == 0
  {
    if d >= 1 {
      TimesMonotone(1, d, n);
    } else if d <= -1 {
      TimesMonotone(1, -d, n);
      assert n * d == -(-d * n);
    }
  }
}
