/**
 JSON-RPC batches: request ids from a 64-bit counter, responses in any order, and matching by
 ids that went through JSON and came back as 64-bit floating-point numbers.
 */
module RpcBatch {
  import opened Wrappers

  const TWO_53: nat := 0x20_0000_0000_0000

  // -------------------------------------------------------------- floating-point numbers

  /** The spacing of the 64-bit floating-point numbers around n. */
  function Spacing(n: nat): (u: nat)
    ensures u > 0
  {
    if n < TWO_53 then 1 else 2 * Spacing(n / 2)
  }

  /** The 64-bit floating-point number nearest to n, ties to an even significand. */
  function RoundToFloat(n: nat): nat {
    RoundTo(n, Spacing(n))
  }

  /** The multiple of u nearest to n, of two equally near the even one. */
  function RoundTo(n: nat, u: nat): nat
    requires u > 0
  {
    var q, r := n / u, n % u;
    if 2 * r < u || (2 * r == u && q % 2 == 0) then q * u else (q + 1) * u
  }

  /** Up to 2^53 integers are exact. */
  lemma SmallIsExact(n: nat)
    requires n <= TWO_53
    ensures RoundToFloat(n) == n
  {
    assert Spacing(TWO_53 / 2) == 1;
    if n == TWO_53 {
      assert Spacing(n) == 2;
    }
  }

  /** Two ids below a bound are never confused if and only if the bound is at most 2^53 + 1. */
  lemma DistinctIffBelow(bound: nat)
    ensures
      (forall j: nat, k: nat | j < bound && k < bound :: RoundToFloat(j) == RoundToFloat(k) ==> j == k)
      <==> bound <= TWO_53 + 1
  {
    if bound <= TWO_53 + 1 {
      forall j: nat, k: nat | j < bound && k < bound ensures RoundToFloat(j) == RoundToFloat(k) ==> j == k {
        SmallIsExact(j);
        SmallIsExact(k);
      }
    } else {
      SmallIsExact(TWO_53);
      assert Spacing((TWO_53 + 1) / 2) == 1;
      assert Spacing(TWO_53 + 1) == 2;
      assert RoundToFloat(TWO_53 + 1) == TWO_53;
    }
  }

  // ------------------------------------------------------------------------ ids and search

  /** An id by its dynamic type.  A float stands for an integral value. */
  datatype Id = Null | Uint64(u: uint64) | Float64(f: nat) | Text(s: string)

  function ToFloat64(id: Id): Option<nat> {
    match id
    case Float64(f) => Some(f)
    case Uint64(u) => Some(RoundToFloat(u))
    case _ => None
  }

  function IdsEqual(a: Id, b: Id): bool {
    if a == b then true
    else
      match (ToFloat64(a), ToFloat64(b))
      case (Some(x), Some(y)) => x == y
      case _ => a.Text? && b.Text? && a.s == b.s
  }

  datatype Response = Response(id: Id, error: Option<string>, result: string)

  /** The first response whose id matches. */
  function FindById(responses: seq<Response>, id: Id): (r: Option<Response>) {
    if responses == [] then None
    else if IdsEqual(responses[0].id, id) then Some(responses[0])
    else FindById(responses[1..], id)
  }

  method GetById(responses: seq<Response>, id: Id) returns (r: Option<Response>)
    ensures r == FindById(responses, id)
  {
    for i := 0 to |responses|
      invariant FindById(responses, id) == FindById(responses[i..], id)
    {
      if IdsEqual(responses[i].id, id) {
        return Some(responses[i]);
      }
    }
    r := None;
  }

  // ------------------------------------------------------------------ building a batch

  /** Parameters, already encoded or impossible to encode. */
  datatype Params = NoParams | Encoded(json: string) | Unencodable

  datatype BatchRequest = BatchRequest(name: string, params: Params)
  datatype Request = Request(id: uint64, name: string, params: string)
  datatype BatchResult = BatchResult(request: BatchRequest, error: Option<string>, result: string)

  /** The k-th id after the counter, modulo 2^64. */
  function IdAfter(counter: uint64, k: nat): uint64 {
    (counter + k) % TWO_64
  }

  /** The request built has the name and the encoded parameters it was asked for. */
  predicate Carries(built: Request, request: BatchRequest) {
    && built.name == request.name
    && (request.params.Encoded? ==> built.params == request.params.json)
    && (request.params.NoParams? ==> built.params == "")
  }

  class RequestBuilder {
    var idCounter: uint64

    constructor ()
      ensures idCounter == 0
    {
      idCounter := 0;
    }

    method NextId() returns (id: uint64)
      modifies this
      ensures id == idCounter == IdAfter(old(idCounter), 1)
    {
      idCounter := (idCounter as int + 1) % TWO_64;
      id := idCounter;
    }

    method Build(name: string, params: Params) returns (r: Result<Request, string>)
      modifies this
      ensures idCounter == IdAfter(old(idCounter), 1)
      ensures r.Err? <==> params.Unencodable?
      ensures r.Ok? ==> r.value == Request(idCounter, name, if params.Encoded? then params.json else "")
    {
      var id := NextId();
      match params {
        case NoParams => r := Ok(Request(id, name, ""));
        case Encoded(json) => r := Ok(Request(id, name, json));
        case Unencodable => r := Err("failed to marshal params");
      }
    }

    /** Other goroutines draw `others(k)` ids before the k-th request is built.  Each request
        gets an id of its own, in increasing order until the counter wraps; the first request
        that cannot be encoded ends the loop, its id spent. */
    method BuildBatch(requests: seq<BatchRequest>, others: nat -> nat) returns (r: Result<seq<Request>, string>)
      modifies this
      ensures r.Ok? <==> forall q <- requests :: !q.params.Unencodable?
      ensures r.Ok? ==>
                && |r.value| == |requests|
                && IdsOf(r.value) == BatchIds(old(idCounter), others, |requests|)
                && (forall i | 0 <= i < |requests| :: Carries(r.value[i], requests[i]))
                && idCounter == IdAfter(old(idCounter), Drawn(others, |requests|))
      ensures r.Ok? && old(idCounter) + Drawn(others, |requests|) < TWO_64 ==>
                Increasing(old(idCounter), IdsOf(r.value))
      ensures r.Err? ==>
                exists k: nat :: k < |requests| && requests[k].params.Unencodable?
                                 && (forall i | 0 <= i < k :: !requests[i].params.Unencodable?)
                                 && idCounter == IdAfter(old(idCounter), Drawn(others, k + 1))
    {
      var built: seq<Request> := [];
      for i := 0 to |requests|
        invariant |built| == i && idCounter == IdAfter(old(idCounter), Drawn(others, i))
        invariant forall k | 0 <= k < i :: !requests[k].params.Unencodable? && Carries(built[k], requests[k])
        invariant IdsOf(built) == BatchIds(old(idCounter), others, i)
      {
        IdAfterAgain(old(idCounter), Drawn(others, i), others(i) + 1);
        var q := BuildLater(requests[i], others(i));
        if q.Err? {
          return Err(q.error);
        }
        BatchIdsNext(old(idCounter), others, i, built, q.value);
        built := built + [q.value];
      }
      BatchIdsIncrease(old(idCounter), others, |requests|);
      r := Ok(built);
    }

    /** Build a request after others have drawn some ids. */
    method BuildLater(request: BatchRequest, others: nat) returns (r: Result<Request, string>)
      modifies this
      ensures idCounter == IdAfter(old(idCounter), others + 1)
      ensures r.Err? <==> request.params.Unencodable?
      ensures r.Ok? ==> r.value.id == idCounter && Carries(r.value, request)
    {
      IdAfterAgain(idCounter, others, 1);
      idCounter := IdAfter(idCounter, others);
      r := Build(request.name, request.params);
    }

    /** Send the batch and sort the responses back into request order.  `reply` is what the
        transport and the parser make of the requests. */
    method Execute(requests: seq<BatchRequest>, others: nat -> nat, reply: Result<seq<Response>, string>)
      returns (r: Result<seq<BatchResult>, string>)
      modifies this
      ensures requests == [] ==> r == Ok([]) && idCounter == old(idCounter)
      ensures requests != [] && reply.Err? ==> r.Err?
      ensures requests != [] && (exists q <- requests :: q.params.Unencodable?) ==> r.Err?
      ensures requests != [] && reply.Ok? && (forall q <- requests :: !q.params.Unencodable?) ==>
                r == Ok(Slots(BatchIds(old(idCounter), others, |requests|), requests, reply.value))
    {
      if |requests| == 0 {
        return Ok([]);
      }
      var built := BuildBatch(requests, others);
      if built.Err? {
        return Err(built.error);
      }
      if reply.Err? {
        return Err(reply.error);
      }
      var results := MatchResponses(IdsOf(built.value), requests, reply.value);
      r := Ok(results);
    }
  }

  function IdsOf(requests: seq<Request>): (ids: seq<uint64>)
    ensures |ids| == |requests|
  {
    seq(|requests|, i requires 0 <= i < |requests| => requests[i].id)
  }

  /** The loop over the requests, with its search through the responses. */
  method MatchResponses(ids: seq<uint64>, requests: seq<BatchRequest>, responses: seq<Response>)
    returns (results: seq<BatchResult>)
    requires |ids| == |requests|
    ensures results == Slots(ids, requests, responses)
  {
    results := [];
    for i := 0 to |ids|
      invariant results == Slots(ids, requests, responses)[..i]
    {
      var resp := GetById(responses, Uint64(ids[i]));
      results := results + [Slot(requests[i], resp)];
    }
  }

  /** How far the counter is on when k requests are built. */
  function Drawn(others: nat -> nat, k: nat): nat {
    if k == 0 then 0 else Drawn(others, k - 1) + others(k - 1) + 1
  }

  /** The ids of a batch. */
  function BatchIds(counter: uint64, others: nat -> nat, n: nat): (ids: seq<uint64>)
    ensures |ids| == n
  {
    seq(n, i requires 0 <= i < n => IdAfter(counter, Drawn(others, i + 1)))
  }

  lemma {:induction false} DrawnIncreases(others: nat -> nat, i: nat, j: nat)
    requires i < j
    ensures Drawn(others, i) < Drawn(others, j)
  {
    if i < j - 1 {
      DrawnIncreases(others, i, j - 1);
    }
  }

  ghost predicate Increasing(counter: uint64, ids: seq<uint64>) {
    && (forall i | 0 <= i < |ids| :: counter < ids[i])
    && (forall i, j | 0 <= i < j < |ids| :: ids[i] < ids[j])
  }

  lemma BatchIdsNext(counter: uint64, others: nat -> nat, n: nat, built: seq<Request>, q: Request)
    requires IdsOf(built) == BatchIds(counter, others, n) && q.id == IdAfter(counter, Drawn(others, n + 1))
    ensures IdsOf(built + [q]) == BatchIds(counter, others, n + 1)
  {
    assert IdsOf(built + [q]) == IdsOf(built) + [q.id];
    assert BatchIds(counter, others, n + 1) == BatchIds(counter, others, n) + [q.id];
  }

  lemma BatchIdInRange(counter: uint64, others: nat -> nat, n: nat, i: nat)
    requires i < n && counter + Drawn(others, n) < TWO_64
    ensures BatchIds(counter, others, n)[i] == counter + Drawn(others, i + 1)
  {
    if i + 1 < n {
      DrawnIncreases(others, i + 1, n);
    }
  }

  lemma BatchIdsIncrease(counter: uint64, others: nat -> nat, n: nat)
    ensures counter + Drawn(others, n) < TWO_64 ==> Increasing(counter, BatchIds(counter, others, n))
  {
    if counter + Drawn(others, n) < TWO_64 {
      var ids := BatchIds(counter, others, n);
      forall i | 0 <= i < n ensures counter < ids[i] {
        BatchIdInRange(counter, others, n, i);
        DrawnIncreases(others, 0, i + 1);
      }
      forall i, j | 0 <= i < j < n ensures ids[i] < ids[j] {
        BatchIdInRange(counter, others, n, i);
        BatchIdInRange(counter, others, n, j);
        DrawnIncreases(others, i + 1, j + 1);
      }
    }
  }

  lemma IdAfterAgain(counter: uint64, j: nat, k: nat)
    ensures IdAfter(IdAfter(counter, j), k) == IdAfter(counter, j + k)
  {
  }

  const MISSING := "no response for request"

  function Slot(request: BatchRequest, resp: Option<Response>): BatchResult {
    match resp
    case None => BatchResult(request, Some(MISSING), "")
    case Some(r) =>
      if r.error.Some? then BatchResult(request, r.error, "") else BatchResult(request, None, r.result)
  }

  /** The results of a batch of requests with these ids. */
  function Slots(ids: seq<uint64>, requests: seq<BatchRequest>, responses: seq<Response>): (rs: seq<BatchResult>)
    requires |ids| == |requests|
    ensures |rs| == |requests|
  {
    seq(|requests|, i requires 0 <= i < |requests| => Slot(requests[i], FindById(responses, Uint64(ids[i]))))
  }

  // ----------------------------------------------------------------------- the guarantee

  /** A response as the server sends it: an integer id, an error or a result. */
  datatype Reply = Reply(id: nat, error: Option<string>, result: string)

  /** What the JSON decoder makes of a reply: its id becomes a floating-point number. */
  function Decoded(reply: Reply): Response {
    Response(Float64(RoundToFloat(reply.id)), reply.error, reply.result)
  }

  function DecodedAll(replies: seq<Reply>): (rs: seq<Response>)
    ensures |rs| == |replies|
  {
    seq(|replies|, i requires 0 <= i < |replies| => Decoded(replies[i]))
  }

  /** The decoder keeps the ids of two replies apart if and only if they are below 2^53 + 1. */
  lemma DecodedApartIffBelow(bound: nat, error: Option<string>, result: string)
    ensures
      (forall j: nat, k: nat | j < bound && k < bound ::
         Decoded(Reply(j, error, result)).id == Decoded(Reply(k, error, result)).id ==> j == k)
      <==> bound <= TWO_53 + 1
  {
    DistinctIffBelow(bound);
    forall j: nat, k: nat | j < bound && k < bound
      ensures Decoded(Reply(j, error, result)).id == Decoded(Reply(k, error, result)).id <==>
              RoundToFloat(j) == RoundToFloat(k)
    {
    }
  }

  /** The server's side: exact ids, each once. */
  predicate Answers(replies: seq<Reply>) {
    && (forall r <- replies :: r.id <= TWO_53)
    && (forall i, j | 0 <= i < j < |replies| :: replies[i].id != replies[j].id)
  }

  lemma {:induction false} FindFails(responses: seq<Response>, id: Id)
    requires forall r <- responses :: !IdsEqual(r.id, id)
    ensures FindById(responses, id) == None
  {
    if responses != [] {
      FindFails(responses[1..], id);
    }
  }

  lemma {:induction false} FindOnly(responses: seq<Response>, id: Id, k: nat)
    requires k < |responses| && IdsEqual(responses[k].id, id)
    requires forall i | 0 <= i < k :: !IdsEqual(responses[i].id, id)
    ensures FindById(responses, id) == Some(responses[k])
  {
    if k > 0 {
      FindOnly(responses[1..], id, k - 1);
    }
  }

  lemma FindsAt(replies: seq<Reply>, id: uint64, k: nat)
    requires Answers(replies) && id <= TWO_53 && k < |replies| && replies[k].id == id
    ensures FindById(DecodedAll(replies), Uint64(id)) == Some(Decoded(replies[k]))
  {
    var rs := DecodedAll(replies);
    forall i | 0 <= i <= k ensures IdsEqual(rs[i].id, Uint64(id)) <==> i == k {
      assert replies[i] in replies;
      MatchIsExact(replies[i], id);
    }
    FindOnly(rs, Uint64(id), k);
  }

  lemma FindsNone(replies: seq<Reply>, id: uint64)
    requires Answers(replies) && id <= TWO_53 && forall r <- replies :: r.id != id
    ensures FindById(DecodedAll(replies), Uint64(id)) == None
  {
    var rs := DecodedAll(replies);
    forall r | r in rs ensures !IdsEqual(r.id, Uint64(id)) {
      var i :| 0 <= i < |rs| && rs[i] == r;
      assert replies[i] in replies;
      MatchIsExact(replies[i], id);
    }
    FindFails(rs, Uint64(id));
  }

  /** A search by an exact id finds the reply with that id, wherever it stands. */
  lemma FindsTheAnswer(replies: seq<Reply>, id: uint64)
    requires Answers(replies) && id <= TWO_53
    ensures forall r <- replies :: r.id == id ==> FindById(DecodedAll(replies), Uint64(id)) == Some(Decoded(r))
    ensures (forall r <- replies :: r.id != id) ==> FindById(DecodedAll(replies), Uint64(id)) == None
  {
    forall r | r in replies && r.id == id
      ensures FindById(DecodedAll(replies), Uint64(id)) == Some(Decoded(r))
    {
      var k :| 0 <= k < |replies| && replies[k] == r;
      FindsAt(replies, id, k);
    }
    if forall r <- replies :: r.id != id {
      FindsNone(replies, id);
    }
  }

  lemma MatchIsExact(reply: Reply, id: uint64)
    requires reply.id <= TWO_53 && id <= TWO_53
    ensures IdsEqual(Decoded(reply).id, Uint64(id)) <==> reply.id == id
  {
    SmallIsExact(reply.id);
    SmallIsExact(id);
  }

  /** Slot i holds the answer to request i, and the missing-response error exactly when no reply
      carries its id, whatever exact ids the requests were given. */
  lemma SlotHoldsItsAnswer(ids: seq<uint64>, requests: seq<BatchRequest>, replies: seq<Reply>, i: nat)
    requires Answers(replies) && |ids| == |requests| && i < |ids| && ids[i] <= TWO_53
    ensures
      var slot := Slots(ids, requests, DecodedAll(replies))[i];
      && slot.request == requests[i]
      && (forall r <- replies :: r.id == ids[i] ==>
            slot.error == r.error && (r.error.None? ==> slot.result == r.result))
      && ((forall r <- replies :: r.id != ids[i]) ==> slot.error == Some(MISSING))
  {
    FindsTheAnswer(replies, ids[i]);
  }

  /** The order of the replies does not matter. */
  lemma OrderDoesNotMatter(ids: seq<uint64>, requests: seq<BatchRequest>, a: seq<Reply>, b: seq<Reply>)
    requires Answers(a) && Answers(b) && multiset(a) == multiset(b)
    requires |ids| == |requests| && forall i | 0 <= i < |ids| :: ids[i] <= TWO_53
    ensures Slots(ids, requests, DecodedAll(a)) == Slots(ids, requests, DecodedAll(b))
  {
    forall i | 0 <= i < |requests|
      ensures Slots(ids, requests, DecodedAll(a))[i] == Slots(ids, requests, DecodedAll(b))[i]
    {
      SameSearch(a, b, ids[i]);
    }
  }

  lemma SameSearch(a: seq<Reply>, b: seq<Reply>, id: uint64)
    requires Answers(a) && Answers(b) && multiset(a) == multiset(b) && id <= TWO_53
    ensures FindById(DecodedAll(a), Uint64(id)) == FindById(DecodedAll(b), Uint64(id))
  {
    FindsTheAnswer(a, id);
    FindsTheAnswer(b, id);
    assert forall r :: r in a <==> r in multiset(a);
    assert forall r :: r in b <==> r in multiset(b);
    if r :| r in a && r.id == id {
      assert r in b;
    } else {
      assert forall r <- b :: r in a;
    }
  }

  /** Past 2^53 the second of two requests gets the first one's answer. */
  lemma PastTheBoundAnswersCross(requests: seq<BatchRequest>, first: string, second: string)
    requires |requests| == 2
    ensures
      var replies := [Reply(TWO_53, None, first), Reply(TWO_53 + 1, None, second)];
      var rs := Slots([TWO_53, TWO_53 + 1], requests, DecodedAll(replies));
      rs[0].result == first && rs[1].result == first
  {
    var rs := DecodedAll([Reply(TWO_53, None, first), Reply(TWO_53 + 1, None, second)]);
    SmallIsExact(TWO_53);
    assert Spacing((TWO_53 + 1) / 2) == 1;
    assert Spacing(TWO_53 + 1) == 2;
    FindOnly(rs, Uint64(TWO_53), 0);
    FindOnly(rs, Uint64(TWO_53 + 1), 0);
  }

  // --------------------------------------------------------------- what the conversion is

  predicate PowerOfTwo(u: nat) {
    u == 1 || (u > 1 && u % 2 == 0 && PowerOfTwo(u / 2))
  }

  /** Past 2^53 the spacing is the power of two that makes the significand one of 53 bits. */
  lemma {:induction false} SpacingFits(n: nat)
    ensures PowerOfTwo(Spacing(n))
    ensures n < TWO_53 ==> Spacing(n) == 1
    ensures n >= TWO_53 ==> TWO_53 / 2 <= n / Spacing(n) < TWO_53
  {
    if n >= TWO_53 {
      SpacingFits(n / 2);
      HalfTwice(n, Spacing(n / 2));
      assert Spacing(n) == 2 * Spacing(n / 2);
    }
  }

  lemma HalfTwice(n: nat, u: nat)
    requires u > 0
    ensures n / 2 / u == n / (2 * u)
  {
    var q, r := n / 2 / u, n / 2 % u;
    Divided(n / 2, u);
    DoubledProduct(q, u);
    QuotientIs(n, 2 * u, q, q * (2 * u), 2 * r + n % 2);
  }

  lemma Divided(n: nat, u: nat)
    requires u > 0
    ensures n == n / u * u + n % u && n % u < u
  {
  }

  lemma DoubledProduct(q: nat, u: nat)
    ensures q * (2 * u) == 2 * (q * u)
  {
  }

  lemma QuotientIs(n: nat, m: nat, q: nat, product: nat, r: nat)
    requires m > 0 && product == q * m && n == product + r && r < m
    ensures n / m == q
  {
    Divided(n, m);
    Apart(n / m, q, m);
    Apart(q, n / m, m);
  }

  lemma {:induction false} Apart(p: nat, q: nat, m: nat)
    ensures p < q ==> p * m + m <= q * m
    decreases q
  {
    if p < q {
      NextProduct(q - 1, m);
      Apart(p, q - 1, m);
    }
  }

  lemma NextProduct(q: nat, m: nat)
    ensures (q + 1) * m == q * m + m
  {
  }

  function Gap(x: nat, n: nat): nat {
    if x < n then n - x else x - n
  }

  /** The floating-point number x is the q-th multiple of the spacing u, no further than half of it
      from n, and even when n lies midway. */
  ghost predicate Nearest(n: nat, u: nat, q: nat, x: nat) {
    && x == q * u
    && 2 * Gap(x, n) <= u
    && (2 * Gap(x, n) == u ==> q % 2 == 0)
  }

  /** The conversion rounds to the nearest multiple of the spacing, ties to an even one. */
  lemma RoundsToNearest(n: nat)
    ensures exists q: nat :: Nearest(n, Spacing(n), q, RoundToFloat(n))
  {
    NearestOf(n, Spacing(n));
    var q: nat :| Nearest(n, Spacing(n), q, RoundTo(n, Spacing(n)));
    assert Nearest(n, Spacing(n), q, RoundToFloat(n));
  }

  lemma NearestOf(n: nat, u: nat)
    requires u > 0
    ensures exists q: nat :: Nearest(n, u, q, RoundTo(n, u))
  {
    var q := n / u;
    Divided(n, u);
    NextProduct(q, u);
    Rounded(n, u, q, q * u, n % u);
    assert Nearest(n, u, q, RoundTo(n, u)) || Nearest(n, u, q + 1, RoundTo(n, u));
  }

  lemma Rounded(n: nat, u: nat, q: nat, low: nat, r: nat)
    requires u > 0 && low == q * u && low + u == (q + 1) * u && n == low + r && r < u
    ensures
      var up := !(2 * r < u || (2 * r == u && q % 2 == 0));
      if up then Nearest(n, u, q + 1, (q + 1) * u) else Nearest(n, u, q, q * u)
  {
    var up := !(2 * r < u || (2 * r == u && q % 2 == 0));
    if up {
      assert Gap(low + u, n) == u - r;
    } else {
      assert Gap(low, n) == r;
    }
  }

  /** Text ids match as text, numbers as numbers, and null only null. */
  lemma IdsMatchByKind(a: Id, b: Id)
    ensures IdsEqual(a, b) == IdsEqual(b, a) && IdsEqual(a, a)
    ensures a.Text? || a.Null? ==> (IdsEqual(a, b) <==> a == b)
    ensures a.Float64? && b.Float64? ==> (IdsEqual(a, b) <==> a.f == b.f)
    ensures a.Uint64? && b.Float64? ==> (IdsEqual(a, b) <==> RoundToFloat(a.u) == b.f)
  {
  }
}
