/** What republication does to a message's headers, over every run. */
module PipelineHeaders {
  import opened Common
  import Runs
  import opened OperationLog
  import opened Pipeline

  /** Both tables say the same about a header. */
  ghost predicate SameHeader(h: Headers, h': Headers, k: string) {
    (k in h <==> k in h') && (k in h ==> h[k] == h'[k])
  }

  /** The pipeline's own headers: the count, the failure's text, and the broker's record. */
  ghost predicate OwnHeader(k: string) {
    k == "x-retry-count" || k == "x-error" || k == "x-death"
  }

  /** A copy carries its parent's foreign headers, and in the DLQ the failure's text. */
  ghost predicate HeadersOk(s: State, j: nat)
    requires j < |s.copies|
  {
    var c := s.copies[j];
    && (c.parent.Some? ==> c.parent.value < |s.copies|
                           && forall k :: !OwnHeader(k) ==> SameHeader(c.headers, s.copies[c.parent.value].headers, k))
    && (c.place.Dead? ==> ERROR_HEADER in c.headers)
  }

  ghost predicate HeadersInv(s: State) {
    forall j :: 0 <= j < |s.copies| ==> HeadersOk(s, j)
  }

  /** Headers of existing copies change at most in the broker's record. */
  lemma ForeignHeadersStay(p: Params, s: State, a: Action, i: nat)
    requires Wired(p) && Inv(p, s) && i < |s.copies|
    ensures i < |Step(p, s, a).copies|
    ensures forall k :: !OwnHeader(k) ==> SameHeader(Step(p, s, a).copies[i].headers, s.copies[i].headers, k)
    ensures ERROR_HEADER in s.copies[i].headers ==> ERROR_HEADER in Step(p, s, a).copies[i].headers
  {
    assert |ERROR_HEADER| == |DEATH_HEADER| && ERROR_HEADER[2] != DEATH_HEADER[2];
  }

  lemma NewCopyHeaders(p: Params, s: State, a: Action)
    requires Wired(p) && Inv(p, s) && |Step(p, s, a).copies| > |s.copies|
    ensures |Step(p, s, a).copies| == |s.copies| + 1 && HeadersOk(Step(p, s, a), |s.copies|)
  {
    Wiring(p);
    if a.Accept? {
      assert WorkOk(p, s, a.d);
    }
  }

  lemma StepKeepsHeaders(p: Params, s: State, a: Action)
    requires Wired(p) && Inv(p, s) && HeadersInv(s)
    ensures HeadersInv(Step(p, s, a))
  {
    var s' := Step(p, s, a);
    StepKeepsInv(p, s, a);
    forall j | 0 <= j < |s'.copies| ensures HeadersOk(s', j) {
      if j < |s.copies| {
        assert HeadersOk(s, j) && SameMessage(s.copies[j], s'.copies[j]);
        ForeignHeadersStay(p, s, a, j);
        if s.copies[j].parent.Some? {
          ForeignHeadersStay(p, s, a, s.copies[j].parent.value);
        }
      } else {
        NewCopyHeaders(p, s, a);
      }
    }
  }

  lemma {:induction false} ExecKeepsHeaders(p: Params, s: State, actions: seq<Action>)
    requires Wired(p) && Inv(p, s) && HeadersInv(s)
    ensures HeadersInv(Exec(p, s, actions))
    decreases |actions|
  {
    if actions != [] {
      StepKeepsInv(p, s, actions[0]);
      StepKeepsHeaders(p, s, actions[0]);
      ExecKeepsHeaders(p, Step(p, s, actions[0]), actions[1..]);
    }
  }

  /** Main result. Over every run a republished message keeps every header it came with but the retry
      count, the error text and the broker's record, and every entry of the DLQ says what failed. */
  lemma HeadersSurvive(p: Params, actions: seq<Action>, j: nat)
    requires Wired(p)
    ensures var s := Exec(p, START, actions);
            j < |s.copies| ==>
              var c := s.copies[j];
              && (c.parent.Some? && c.parent.value < |s.copies| ==>
                    forall k :: k != "x-retry-count" && k != "x-error" && k != "x-death" ==>
                      SameHeader(c.headers, s.copies[c.parent.value].headers, k))
              && (c.place == Dead ==> "x-error" in c.headers)
  {
    ExecKeepsHeaders(p, START, actions);
    var s := Exec(p, START, actions);
    assert j < |s.copies| ==> HeadersOk(s, j);
  }
}
