/** Settle-all candidate generation and best-candidate selection
    (`generateImageWithReferenceParallel`). The image generator and the
    judging model are oracles: the generator answers each request by its
    ordinal in the fan-out, the judge answers with the index it picked. */
module ParallelGeneration {
  import opened Basics

  const DefaultSize := 800
  const DefaultNumGenerations := 3

  const AllFailedMessage: string := "All image generations failed"
  const InvalidSelectionMessage: string := "Selected best result is invalid"

  /** The arguments; an omitted optional argument is `None`. */
  datatype ParallelRequest = ParallelRequest(
    prompt: string,
    originalImage: Bytes,
    referenceImage: Bytes,
    width: Option<int>,
    height: Option<int>,
    numGenerations: Option<int>)

  /** One call to the single-image generator. */
  datatype ImageRequest = ImageRequest(
    prompt: string,
    originalImage: Bytes,
    referenceImages: seq<Bytes>,
    width: int,
    height: int)

  /** A settled, fulfilled generation and its ordinal in the fan-out. */
  datatype Candidate = Candidate(image: Bytes, index: nat)

  /** What the judging model is shown: the reference image, then the
      candidates, the first at index 0. */
  datatype JudgeRequest = JudgeRequest(reference: Bytes, candidates: seq<Bytes>)

  type Generator = (nat, ImageRequest) -> Result<Bytes, Error>
  type Judge = JudgeRequest -> Result<real, Error>

  /** The request every generation is given: the one reference image as a
      one-element list, and the defaulted size. */
  function RequestFor(req: ParallelRequest): (r: ImageRequest)
    ensures r.referenceImages == [req.referenceImage]
    ensures r.width == req.width.GetOr(DefaultSize) && r.height == req.height.GetOr(DefaultSize)
  {
    ImageRequest(req.prompt, req.originalImage, [req.referenceImage],
                 req.width.GetOr(DefaultSize), req.height.GetOr(DefaultSize))
  }

  /** `Array.from({ length: n }, ...)`: a negative length gives no element. */
  function Requests(req: ParallelRequest): (rs: seq<ImageRequest>)
    ensures var n := req.numGenerations.GetOr(DefaultNumGenerations);
            |rs| == (if n < 0 then 0 else n)
    ensures forall i :: 0 <= i < |rs| ==> rs[i] == RequestFor(req)
  {
    var n := req.numGenerations.GetOr(DefaultNumGenerations);
    seq(if n < 0 then 0 else n, _ => RequestFor(req))
  }

  /** `Promise.allSettled`: the outcome of every request, by ordinal. */
  function Outcomes(rs: seq<ImageRequest>, generate: Generator): (os: seq<Result<Bytes, Error>>)
    ensures |os| == |rs|
    ensures forall i :: 0 <= i < |rs| ==> os[i] == generate(i, rs[i])
  {
    seq(|rs|, i requires 0 <= i < |rs| => generate(i, rs[i]))
  }

  /** The fulfilled outcomes, tagged with their ordinals: each entry is a
      success, under its own ordinal. */
  function SuccessfulResults(outcomes: seq<Result<Bytes, Error>>): (s: seq<Candidate>)
    ensures |s| <= |outcomes|
    ensures forall k :: 0 <= k < |s| ==>
              s[k].index < |outcomes| && outcomes[s[k].index] == Success(s[k].image)
  {
    if outcomes == [] then []
    else
      var n := |outcomes| - 1;
      var front := SuccessfulResults(outcomes[..n]);
      if outcomes[n].Success? then front + [Candidate(outcomes[n].value, n)] else front
  }

  /** The successes keep their original order. */
  lemma {:induction false} SuccessfulResultsInOrder(outcomes: seq<Result<Bytes, Error>>)
    ensures forall k, l :: 0 <= k < l < |SuccessfulResults(outcomes)| ==>
              SuccessfulResults(outcomes)[k].index < SuccessfulResults(outcomes)[l].index
  {
    if outcomes != [] {
      var n := |outcomes| - 1;
      SuccessfulResultsInOrder(outcomes[..n]);
      var front := SuccessfulResults(outcomes[..n]);
      var s := SuccessfulResults(outcomes);
      assert forall k :: 0 <= k < |front| ==> s[k] == front[k] && front[k].index < n;
    }
  }

  /** No success is dropped. */
  lemma {:induction false} SuccessfulResultsComplete(outcomes: seq<Result<Bytes, Error>>, i: nat)
    requires i < |outcomes| && outcomes[i].Success?
    ensures exists k :: 0 <= k < |SuccessfulResults(outcomes)| && SuccessfulResults(outcomes)[k].index == i
  {
    var n := |outcomes| - 1;
    var front := SuccessfulResults(outcomes[..n]);
    var s := SuccessfulResults(outcomes);
    if i == n {
      assert s == front + [Candidate(outcomes[n].value, n)];
      assert s[|front|].index == i;
    } else {
      SuccessfulResultsComplete(outcomes[..n], i);
      var k :| 0 <= k < |front| && front[k].index == i;
      assert s[k] == front[k];
    }
  }

  /** The images of the candidates, in candidate order. */
  function Images(s: seq<Candidate>): (imgs: seq<Bytes>)
    ensures |imgs| == |s|
    ensures forall k :: 0 <= k < |s| ==> imgs[k] == s[k].image
  {
    seq(|s|, k requires 0 <= k < |s| => s[k].image)
  }

  /** `successfulResults[bestIndex]` exists: the index is an integer in range
      (a fractional or out-of-range index reads `undefined`). */
  predicate ValidIndex(b: real, n: nat) {
    b.Floor as real == b && 0 <= b.Floor < n
  }

  /** The selection rule: none fails, one is returned as is, otherwise the
      judge's index into the successful subset decides. */
  function SelectBest(s: seq<Candidate>, reference: Bytes, judge: Judge): (r: Result<Bytes, Error>)
    ensures s == [] ==> r == Failure(Error(AllFailedMessage))
    ensures |s| == 1 ==> r == Success(s[0].image)
    ensures r.Success? ==> exists k :: 0 <= k < |s| && s[k].image == r.value
    ensures |s| >= 2 && judge(JudgeRequest(reference, Images(s))).Success? ==>
              var b := judge(JudgeRequest(reference, Images(s))).value;
              (r.Success? <==> ValidIndex(b, |s|))
              && (ValidIndex(b, |s|) ==> r == Success(s[b.Floor].image))
              && (!ValidIndex(b, |s|) ==> r == Failure(Error(InvalidSelectionMessage)))
    ensures |s| >= 2 && judge(JudgeRequest(reference, Images(s))).Failure? ==>
              r == Failure(judge(JudgeRequest(reference, Images(s))).error)
  {
    if |s| == 0 then Failure(Error(AllFailedMessage))
    else if |s| == 1 then Success(s[0].image)
    else
      match judge(JudgeRequest(reference, Images(s)))
      case Failure(e) => Failure(e)
      case Success(b) =>
        if ValidIndex(b, |s|) then Success(s[b.Floor].image)
        else Failure(Error(InvalidSelectionMessage))
  }

  /** `generateImageWithReferenceParallel`: the image returned is one a
      request of the fan-out produced, and a fan-out without a success
      fails with "All image generations failed". */
  function GenerateImageWithReferenceParallel(req: ParallelRequest, generate: Generator, judge: Judge): (r: Result<Bytes, Error>)
    ensures r.Success? ==>
              exists i :: 0 <= i < |Requests(req)| && generate(i, RequestFor(req)) == Success(r.value)
    ensures (forall i :: 0 <= i < |Requests(req)| ==> generate(i, RequestFor(req)).Failure?) ==>
              r == Failure(Error(AllFailedMessage))
  {
    var outcomes := Outcomes(Requests(req), generate);
    var s := SuccessfulResults(outcomes);
    var r := SelectBest(s, req.referenceImage, judge);
    if r.Success? then
      var k :| 0 <= k < |s| && s[k].image == r.value;
      CandidateWasGenerated(req, generate, k);
      r
    else if forall j :: 0 <= j < |outcomes| ==> outcomes[j].Failure? then
      NoSuccessNoCandidate(outcomes);
      r
    else r
  }

  /** A candidate's image is what its request of the fan-out produced, and
      every request of the fan-out is the same one. */
  lemma CandidateWasGenerated(req: ParallelRequest, generate: Generator, k: nat)
    requires k < |SuccessfulResults(Outcomes(Requests(req), generate))|
    ensures var image := SuccessfulResults(Outcomes(Requests(req), generate))[k].image;
            exists i :: 0 <= i < |Requests(req)| && generate(i, RequestFor(req)) == Success(image)
  {
    var rs := Requests(req);
    var os := Outcomes(rs, generate);
    var s := SuccessfulResults(os);
    var i := s[k].index;
    assert os[i] == generate(i, rs[i]) == generate(i, RequestFor(req));
  }

  /** The judge decides nothing when at most one generation succeeded: any
      two judges give the same result. */
  lemma JudgeUnusedBelowTwo(s: seq<Candidate>, reference: Bytes, judge1: Judge, judge2: Judge)
    requires |s| <= 1
    ensures SelectBest(s, reference, judge1) == SelectBest(s, reference, judge2)
  {
  }

  /** The judge sees the successful images in fan-out order: its k-th
      candidate is the image of the k-th success, and a later candidate
      comes from a later request. */
  lemma JudgeSeesSubsetInOrder(outcomes: seq<Result<Bytes, Error>>, reference: Bytes, k: nat, l: nat)
    requires k < l < |SuccessfulResults(outcomes)|
    ensures var s := SuccessfulResults(outcomes);
            var jr := JudgeRequest(reference, Images(s));
            |jr.candidates| == |s|
            && outcomes[s[k].index] == Success(jr.candidates[k])
            && outcomes[s[l].index] == Success(jr.candidates[l])
            && s[k].index < s[l].index
  {
    SuccessfulResultsInOrder(outcomes);
  }

  /** Without a success there is no candidate. */
  lemma {:induction false} NoSuccessNoCandidate(outcomes: seq<Result<Bytes, Error>>)
    requires forall j :: 0 <= j < |outcomes| ==> outcomes[j].Failure?
    ensures SuccessfulResults(outcomes) == []
  {
    if outcomes != [] {
      NoSuccessNoCandidate(outcomes[..|outcomes| - 1]);
    }
  }

  /** Exactly one success among the outcomes: it is the only candidate. */
  lemma {:induction false} SingleSuccessSingleCandidate(outcomes: seq<Result<Bytes, Error>>, i: nat)
    requires i < |outcomes| && outcomes[i].Success?
    requires forall j :: 0 <= j < |outcomes| && j != i ==> outcomes[j].Failure?
    ensures SuccessfulResults(outcomes) == [Candidate(outcomes[i].value, i)]
  {
    var n := |outcomes| - 1;
    if i == n {
      NoSuccessNoCandidate(outcomes[..n]);
    } else {
      SingleSuccessSingleCandidate(outcomes[..n], i);
    }
  }

  /** Exactly one success among the outcomes: its image is the result,
      whatever the judge would say. */
  lemma OneSuccessIsReturned(outcomes: seq<Result<Bytes, Error>>, i: nat, reference: Bytes, judge: Judge)
    requires i < |outcomes| && outcomes[i].Success?
    requires forall j :: 0 <= j < |outcomes| && j != i ==> outcomes[j].Failure?
    ensures SelectBest(SuccessfulResults(outcomes), reference, judge) == Success(outcomes[i].value)
  {
    SingleSuccessSingleCandidate(outcomes, i);
  }
}
