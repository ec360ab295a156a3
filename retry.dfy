/** The retry loop shared in shape by `GitHubRepository.__api_get`
    (src/ddqa/utils/github.py) and `JiraClient.__api_request`
    (src/ddqa/utils/jira.py): each attempt either returns its response,
    waits as long as the server asks and retries, or fails and retries after
    an exponential backoff of 2, 4, 8, ... seconds.

    The network is an input: the sequence of attempt outcomes the client
    would see. The source loops until a response is returned; the model
    stops with no response when the given attempts run out. */
module Retry {
  import opened Wrappers

  /** An HTTP response: status code and headers. The body is left out.
      httpx matches header names without regard to case, so `headers` is
      keyed by the lower-cased name and every lookup uses lower case. */
  datatype Response = Response(status: int, headers: map<string, string>)

  /** One request: it raised (transport error), or a response came back
      at wall-clock time `clock`. */
  datatype Attempt = Raised(message: string) | Got(response: Response, clock: real)

  /** `check_status` passes exactly the 2xx responses (httpx's
      `raise_for_status` raises on every other status). */
  predicate Passes(r: Response) {
    200 <= r.status < 300
  }

  /** What the loop does with one attempt. */
  datatype Step = Done(response: Response) | Pause(seconds: real) | Failure

  function Pow2(n: nat): (r: nat)
    ensures r >= 1
  {
    if n == 0 then 1 else 2 * Pow2(n - 1)
  }

  /** The response returned and the waits slept before it, for a backoff
      that currently stands at `retryWait` seconds. A server-dictated pause
      leaves the backoff as it is; a failure sleeps the backoff and doubles
      it. */
  function Run(steps: seq<Step>, retryWait: nat): (r: (Option<Response>, seq<real>))
    ensures |r.1| <= |steps|
    decreases |steps|
  {
    if steps == [] then (None, [])
    else match steps[0]
      case Done(r) => (Some(r), [])
      case Pause(s) =>
        var rest := Run(steps[1..], retryWait);
        (rest.0, [s] + rest.1)
      case Failure =>
        var rest := Run(steps[1..], retryWait * 2);
        (rest.0, [retryWait as real] + rest.1)
  }

  /** What a retry loop that has already slept `waits` and stands at
      attempt `i` with backoff `retryWait` goes on to return. */
  function Resume(steps: seq<Step>, i: nat, retryWait: nat, waits: seq<real>): (Option<Response>, seq<real>)
    requires i <= |steps|
  {
    (Run(steps[i..], retryWait).0, waits + Run(steps[i..], retryWait).1)
  }

  lemma ResumeStart(steps: seq<Step>)
    ensures Resume(steps, 0, 2, []) == Run(steps, 2)
  {
    assert steps[0..] == steps;
    assert [] + Run(steps, 2).1 == Run(steps, 2).1;
  }

  lemma ResumeEnd(steps: seq<Step>, retryWait: nat, waits: seq<real>)
    ensures Resume(steps, |steps|, retryWait, waits) == (None, waits)
  {
    assert steps[|steps|..] == [];
    assert waits + [] == waits;
  }

  /** One attempt of the loop: a returned response ends it, a pause or a
      failure is slept and the loop moves on. */
  lemma ResumeStep(steps: seq<Step>, i: nat, retryWait: nat, waits: seq<real>)
    requires i < |steps|
    ensures steps[i].Done? ==> Resume(steps, i, retryWait, waits) == (Some(steps[i].response), waits)
    ensures steps[i].Pause? ==>
      Resume(steps, i, retryWait, waits) == Resume(steps, i + 1, retryWait, waits + [steps[i].seconds])
    ensures steps[i].Failure? ==>
      Resume(steps, i, retryWait, waits) == Resume(steps, i + 1, retryWait * 2, waits + [retryWait as real])
  {
    assert steps[i..][0] == steps[i];
    assert steps[i..][1..] == steps[i + 1..];
    assert waits + [] == waits;
    var rw := if steps[i].Failure? then retryWait * 2 else retryWait;
    var tail := Run(steps[i + 1..], rw).1;
    if !steps[i].Done? {
      var w := if steps[i].Failure? then retryWait as real else steps[i].seconds;
      assert waits + ([w] + tail) == (waits + [w]) + tail;
    }
  }

  /** The number of failed attempts in `steps`. */
  function Failures(steps: seq<Step>): (n: nat)
    ensures n <= |steps|
  {
    if steps == [] then 0 else (if steps[0].Failure? then 1 else 0) + Failures(steps[1..])
  }

  /** The loop stops at the first attempt that returns, after one wait per
      earlier attempt; with none, every attempt was waited for. */
  lemma {:induction false} RunStops(steps: seq<Step>, retryWait: nat)
    ensures var (r, ws) := Run(steps, retryWait);
      && (forall k :: 0 <= k < |ws| ==> !steps[k].Done?)
      && (r.Some? ==> |ws| < |steps| && steps[|ws|] == Done(r.value))
      && (r.None? ==> |ws| == |steps|)
    decreases |steps|
  {
    if steps != [] && !steps[0].Done? {
      var rw := if steps[0].Failure? then retryWait * 2 else retryWait;
      RunStops(steps[1..], rw);
      var ws := Run(steps, retryWait).1;
      assert ws == [ws[0]] + Run(steps[1..], rw).1;
      forall k | 1 <= k < |ws|
        ensures !steps[k].Done?
      {
        assert steps[k] == steps[1..][k - 1];
      }
    }
  }

  /** The wait after attempt `k` is what the server asked for, or the
      backoff `2^(e + f)` when `f` attempts failed before it and the backoff
      started at `2^e`. */
  lemma {:induction false} RunWaits(steps: seq<Step>, e: nat)
    ensures var ws := Run(steps, Pow2(e)).1;
      forall k :: 0 <= k < |ws| ==>
        ws[k] == if steps[k].Pause? then steps[k].seconds else Pow2(e + Failures(steps[..k])) as real
    decreases |steps|
  {
    if steps != [] && !steps[0].Done? {
      var e' := if steps[0].Failure? then e + 1 else e;
      RunWaits(steps[1..], e');
      var ws := Run(steps, Pow2(e)).1;
      var tail := Run(steps[1..], Pow2(e')).1;
      if steps[0].Failure? {
        assert Pow2(e') == Pow2(e) * 2;
      }
      assert ws == [ws[0]] + tail;
      assert Failures(steps[..0]) == 0 by {
        assert steps[..0] == [];
      }
      assert ws[0] == if steps[0].Pause? then steps[0].seconds else Pow2(e) as real;
      forall k | 1 <= k < |ws|
        ensures ws[k] == if steps[k].Pause? then steps[k].seconds else Pow2(e + Failures(steps[..k])) as real
      {
        assert steps[..k][1..] == steps[1..][..k - 1];
        assert e + Failures(steps[..k]) == e' + Failures(steps[1..][..k - 1]);
        assert steps[k] == steps[1..][k - 1];
        assert ws[k] == tail[k - 1];
      }
    }
  }

  /** Both halves: where the loop stops, and how long it waited first. */
  lemma RunCharacterised(steps: seq<Step>, e: nat)
    ensures var (r, ws) := Run(steps, Pow2(e));
      && |ws| <= |steps|
      && (forall k :: 0 <= k < |ws| ==> !steps[k].Done?)
      && (r.Some? ==> |ws| < |steps| && steps[|ws|] == Done(r.value))
      && (r.None? ==> |ws| == |steps|)
    ensures var ws := Run(steps, Pow2(e)).1;
      forall k :: 0 <= k < |ws| ==>
        ws[k] == if steps[k].Pause? then steps[k].seconds else Pow2(e + Failures(steps[..k])) as real
  {
    RunStops(steps, Pow2(e));
    RunWaits(steps, e);
  }

  /** A response is returned exactly when some attempt returns one; it is
      the first such. */
  lemma FirstDoneReturned(steps: seq<Step>, e: nat)
    ensures Run(steps, Pow2(e)).0.Some? <==> exists j :: 0 <= j < |steps| && steps[j].Done?
    ensures Run(steps, Pow2(e)).0.Some? ==>
      exists j :: (0 <= j < |steps| && steps[j] == Done(Run(steps, Pow2(e)).0.value) &&
        forall k :: 0 <= k < j ==> !steps[k].Done?)
  {
    RunCharacterised(steps, e);
    var ws := Run(steps, Pow2(e)).1;
    if Run(steps, Pow2(e)).0.Some? {
      assert steps[|ws|].Done?;
    }
  }
}
