/** Embedding texts in batches. */
module Embedding {
  import opened Collections

  type Vector = seq<real>

  /** The provider's answer to the request that starts at the given position, or None when it fails. */
  type Request = (nat, seq<string>) -> Option<seq<Vector>>

  const BATCH := 100

  /** Whether or not a request fails, one that succeeds gives each text its own vector, in order. */
  ghost predicate Elementwise(request: Request, vector: string -> Vector)
  {
    forall at, texts :: request(at, texts).Some? ==> request(at, texts).value == Map(texts, vector)
  }

  function Slice(texts: seq<string>, i: nat, n: nat): seq<string>
    requires i <= |texts|
  {
    texts[i..if i + n <= |texts| then i + n else |texts|]
  }

  /** All the requests for the texts from `i` on succeed. */
  predicate AllSucceed(request: Request, at: nat, texts: seq<string>, i: nat)
    decreases |texts| - i
  {
    i >= |texts| || (request(at + i, Slice(texts, i, BATCH)).Some? && AllSucceed(request, at, texts, i + BATCH))
  }

  /** One request for every hundred texts, each of which has to succeed. */
  lemma {:induction false} AllSucceedIff(request: Request, at: nat, texts: seq<string>, i: nat)
    requires i % 100 == 0
    ensures AllSucceed(request, at, texts, i) <==>
              forall j :: i <= j < |texts| && j % 100 == 0 ==> request(at + j, Slice(texts, j, 100)).Some?
    decreases |texts| - i
  {
    if i < |texts| {
      AllSucceedIff(request, at, texts, i + 100);
      if AllSucceed(request, at, texts, i) {
        forall j | i <= j < |texts| && j % 100 == 0
          ensures request(at + j, Slice(texts, j, 100)).Some?
        {
          assert j == i || j >= i + 100;
        }
      }
    }
  }

  /** However the texts fall into requests, the result is the vector of each text, in order. */
  method EmbedMany(request: Request, at: nat, texts: seq<string>, ghost vector: string -> Vector)
    returns (r: Option<seq<Vector>>)
    requires Elementwise(request, vector)
    ensures r.Some? <==> AllSucceed(request, at, texts, 0)
    ensures r.Some? ==> r.value == Map(texts, vector)
  {
    hide Elementwise, AllSucceed, Slice;
    if |texts| == 0 {
      NothingLeft(request, at, texts, 0);
      return Some([]);
    }
    var out := [];
    var i := 0;
    while i < |texts|
      invariant 0 <= i
      invariant AllSucceed(request, at, texts, 0) <==> AllSucceed(request, at, texts, i)
      invariant out == Map(First(texts, i), vector)
    {
      var slice := Slice(texts, i, BATCH);
      var res := request(at + i, slice);
      OneMoreSlice(request, at, texts, i, vector);
      if res.None? {
        return None;
      }
      out := out + res.value;
      i := i + BATCH;
    }
    NothingLeft(request, at, texts, i);
    return Some(out);
  }

  /** The first `i` texts, or all of them. */
  function First(texts: seq<string>, i: nat): seq<string>
  {
    if i <= |texts| then texts[..i] else texts
  }

  lemma NothingLeft(request: Request, at: nat, texts: seq<string>, i: nat)
    requires i >= |texts|
    ensures AllSucceed(request, at, texts, i) && First(texts, i) == texts
  {
  }

  lemma OneMoreSlice(request: Request, at: nat, texts: seq<string>, i: nat, vector: string -> Vector)
    requires i < |texts| && Elementwise(request, vector)
    ensures var res := request(at + i, Slice(texts, i, BATCH));
            && (AllSucceed(request, at, texts, i) <==> res.Some? && AllSucceed(request, at, texts, i + BATCH))
            && (res.Some? ==> Map(First(texts, i), vector) + res.value == Map(First(texts, i + BATCH), vector))
  {
    hide Map;
    assert First(texts, i) + Slice(texts, i, BATCH) == First(texts, i + BATCH);
    MapAppend(First(texts, i), Slice(texts, i, BATCH), vector);
  }
}
