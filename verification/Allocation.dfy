/** Whole runs of taking and giving back blocks. */
module Allocation {
  import opened Words
  import opened Blocks
  import opened Bitmaps

  datatype Request = Take | Give(block: nat)

  /** What one request answers. */
  function Answer(held: set<nat>, request: Request, first: nat, blocks: nat): Result<nat, FsError> {
    match request
    case Take =>
      var block := Lowest(held, first, blocks);
      if block.Some? then Ok(block.value) else Err(Full)
    case Give(block) =>
      if first <= block < blocks then Ok(block) else Err(OutOfRange)
  }

  /** What is held after it. */
  function Held(held: set<nat>, request: Request, first: nat, blocks: nat): set<nat> {
    var answer := Answer(held, request, first, blocks);
    if answer.Err? then held else if request.Take? then held + {answer.value} else held - {answer.value}
  }

  function HeldAfter(held: set<nat>, requests: seq<Request>, first: nat, blocks: nat): set<nat> {
    if requests == [] then held
    else Held(HeldAfter(held, requests[..|requests| - 1], first, blocks), requests[|requests| - 1], first, blocks)
  }

  /** The answer to request `k` of a run. */
  function AnswerAt(held: set<nat>, requests: seq<Request>, k: nat, first: nat, blocks: nat): Result<nat, FsError>
    requires k < |requests|
  {
    Answer(HeldAfter(held, requests[..k], first, blocks), requests[k], first, blocks)
  }

  /** Serves requests one after another. */
  method Serve(bitmap: Bitmap, requests: seq<Request>) returns (answers: seq<Result<nat, FsError>>)
    requires bitmap.Valid()
    modifies bitmap
    ensures bitmap.Valid() && |answers| == |requests|
    ensures forall k | 0 <= k < |requests| ::
              answers[k] == AnswerAt(old(bitmap.Held()), requests, k, bitmap.firstData, bitmap.blocks)
    ensures bitmap.Held() == HeldAfter(old(bitmap.Held()), requests, bitmap.firstData, bitmap.blocks)
    ensures forall b: nat | b < bitmap.firstData || b >= bitmap.blocks :: UsedIn(bitmap.bytes, b) == UsedIn(old(bitmap.bytes), b)
  {
    hide UsedIn;
    ghost var held := bitmap.Held();
    answers := [];
    for k := 0 to |requests|
      invariant bitmap.Valid() && |answers| == k
      invariant bitmap.Held() == HeldAfter(held, requests[..k], bitmap.firstData, bitmap.blocks)
      invariant forall j | 0 <= j < k :: answers[j] == AnswerAt(held, requests, j, bitmap.firstData, bitmap.blocks)
      invariant forall b: nat | b < bitmap.firstData || b >= bitmap.blocks :: UsedIn(bitmap.bytes, b) == UsedIn(old(bitmap.bytes), b)
    {
      assert requests[..k + 1][..k] == requests[..k];
      var answer := ServeOne(bitmap, requests[k]);
      answers := answers + [answer];
    }
    assert requests[..|requests|] == requests;
  }

  method ServeOne(bitmap: Bitmap, request: Request) returns (answer: Result<nat, FsError>)
    requires bitmap.Valid()
    modifies bitmap
    ensures bitmap.Valid()
    ensures answer == Answer(old(bitmap.Held()), request, bitmap.firstData, bitmap.blocks)
    ensures bitmap.Held() == Held(old(bitmap.Held()), request, bitmap.firstData, bitmap.blocks)
    ensures forall b: nat | b < bitmap.firstData || b >= bitmap.blocks :: UsedIn(bitmap.bytes, b) == UsedIn(old(bitmap.bytes), b)
  {
    match request
    case Take =>
      answer := bitmap.Allocate();
    case Give(block) =>
      var freed := bitmap.Free(block);
      answer := if freed.Ok? then Ok(block) else Err(OutOfRange);
  }

  /** Nothing but data is ever held. */
  lemma {:induction false} OnlyData(held: set<nat>, requests: seq<Request>, first: nat, blocks: nat)
    requires forall b | b in held :: first <= b < blocks
    ensures forall b | b in HeldAfter(held, requests, first, blocks) :: first <= b < blocks
  {
    if requests != [] {
      OnlyData(held, requests[..|requests| - 1], first, blocks);
    }
  }

  /** A block taken stays held until it is given back. */
  lemma {:induction false} HeldUntilGiven(held: set<nat>, requests: seq<Request>, from: nat, first: nat, blocks: nat, b: nat)
    requires from <= |requests| && b in HeldAfter(held, requests[..from], first, blocks)
    requires forall k | from <= k < |requests| :: requests[k] != Give(b)
    ensures b in HeldAfter(held, requests, first, blocks)
    decreases |requests|
  {
    if from == |requests| {
      assert requests[..from] == requests;
    } else {
      var front := requests[..|requests| - 1];
      assert front[..from] == requests[..from];
      HeldUntilGiven(held, front, from, first, blocks, b);
    }
  }

  /** The block was held when the run began, or request `n - 1` took it; and nothing after the first `n` gave it back. */
  ghost predicate KeptSince(held: set<nat>, requests: seq<Request>, n: nat, first: nat, blocks: nat, b: nat)
    requires n <= |requests|
  {
    && (if n == 0 then b in held else requests[n - 1] == Take && AnswerAt(held, requests, n - 1, first, blocks) == Ok(b))
    && forall k | n <= k < |requests| :: requests[k] != Give(b)
  }

  /** A data block is held after a run exactly if it was held or was taken, and has not been given back since. */
  lemma {:induction false} HeldExactly(held: set<nat>, requests: seq<Request>, first: nat, blocks: nat, b: nat)
    requires first <= b < blocks
    ensures b in HeldAfter(held, requests, first, blocks) <==> exists n | 0 <= n <= |requests| :: KeptSince(held, requests, n, first, blocks, b)
  {
    hide Lowest;
    if requests == [] {
      assert KeptSince(held, requests, 0, first, blocks, b) <==> b in held;
    } else {
      var front, last := requests[..|requests| - 1], |requests| - 1;
      HeldExactly(held, front, first, blocks, b);
      assert requests[..last] == front;
      forall n | 0 <= n <= last
        ensures KeptSince(held, requests, n, first, blocks, b) <==> KeptSince(held, front, n, first, blocks, b) && requests[last] != Give(b)
      {
        KeptMore(held, requests, n, first, blocks, b);
      }
      assert KeptSince(held, requests, |requests|, first, blocks, b)
        <==> requests[last] == Take && Answer(HeldAfter(held, front, first, blocks), Take, first, blocks) == Ok(b);
    }
  }

  lemma KeptMore(held: set<nat>, requests: seq<Request>, n: nat, first: nat, blocks: nat, b: nat)
    requires n < |requests|
    ensures var front := requests[..|requests| - 1];
      KeptSince(held, requests, n, first, blocks, b) <==> KeptSince(held, front, n, first, blocks, b) && requests[|requests| - 1] != Give(b)
  {
    hide HeldAfter, Answer;
    var front := requests[..|requests| - 1];
    if n > 0 {
      assert front[..n - 1] == requests[..n - 1];
    }
    assert forall k | n <= k < |front| :: front[k] == requests[k];
  }

  /** No block is handed out twice without being given back in between. */
  lemma NeverTwice(held: set<nat>, requests: seq<Request>, i: nat, j: nat, first: nat, blocks: nat)
    requires i < j < |requests| && requests[i] == Take && requests[j] == Take
    requires AnswerAt(held, requests, i, first, blocks).Ok?
    requires forall k | i < k < j :: requests[k] != Give(AnswerAt(held, requests, i, first, blocks).value)
    ensures AnswerAt(held, requests, j, first, blocks) != AnswerAt(held, requests, i, first, blocks)
  {
    var b := AnswerAt(held, requests, i, first, blocks).value;
    var run := requests[..j];
    assert requests[..i + 1][..i] == requests[..i];
    assert run[..i + 1] == requests[..i + 1];
    HeldUntilGiven(held, run, i + 1, first, blocks, b);
  }
}
