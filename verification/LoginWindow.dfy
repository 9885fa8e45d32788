/**
 The failed-login window of hpe_users: what a failure, a success or a reset does to failed_attempts and
 last_failed_attempt, and which histories a stored count stands for.
 */
module LoginWindows {
  import opened Options

  /** What happens to one user's window, with times in microseconds. Clearing sets the count to 0 and
      keeps the time of the last failure; forgetting, the pipeline reset, drops both. */
  datatype WindowEvent = Fail(at: int) | Clear | Forget

  datatype Window = Window(attempts: int, last: Option<int>)

  const FIVE_MINUTES := 300_000_000
  const CALM := Window(0, None)

  function Strike(w: Window, e: WindowEvent): Window {
    match e
    case Fail(at) =>
      var recent := w.last.Some? && w.last.value > at - FIVE_MINUTES;
      Window(if recent then w.attempts + 1 else 1, Some(at))
    case Clear => w.(attempts := 0)
    case Forget => CALM
  }

  function Play(h: seq<WindowEvent>): Window {
    if h == [] then CALM else Strike(Play(h[..|h| - 1]), h[|h| - 1])
  }

  /** A correct login is treated as a guessed one. */
  predicate BruteForce(w: Window, now: int) {
    w.attempts > 5 && w.last.Some? && now - w.last.value < FIVE_MINUTES
  }

  /** The last k events are failures, each less than five minutes after the one before it. */
  predicate Chain(h: seq<WindowEvent>, k: nat) {
    && k <= |h|
    && (forall i :: |h| - k <= i < |h| ==> h[i].Fail?)
    && (forall i :: |h| - k < i < |h| ==> h[i].at - h[i - 1].at < FIVE_MINUTES)
  }

  lemma LastFailure(h: seq<WindowEvent>)
    ensures h != [] && h[|h| - 1].Fail? ==> Play(h).last == Some(h[|h| - 1].at) && Play(h).attempts >= 1
    ensures h == [] || !h[|h| - 1].Fail? ==> Play(h).attempts == 0
  {
    if h != [] {
      AttemptsAreCounted(h[..|h| - 1]);
    }
  }

  lemma {:induction false} AttemptsAreCounted(h: seq<WindowEvent>)
    ensures 0 <= Play(h).attempts <= |h|
  {
    if h != [] {
      AttemptsAreCounted(h[..|h| - 1]);
    }
  }

  lemma ChainOfLonger(init: seq<WindowEvent>, at: int, k: nat)
    requires 1 < k <= |init| + 1
    ensures Chain(init + [Fail(at)], k)
            <==> Chain(init, k - 1) && at - init[|init| - 1].at < FIVE_MINUTES
  {
    var h := init + [Fail(at)];
    assert forall i :: 0 <= i < |init| ==> h[i] == init[i];
    if Chain(h, k) {
      forall i | |init| - (k - 1) <= i < |init| ensures init[i].Fail? {
        assert h[i].Fail?;
      }
      forall i | |init| - (k - 1) < i < |init| ensures init[i].at - init[i - 1].at < FIVE_MINUTES {
        assert h[i].at - h[i - 1].at < FIVE_MINUTES && h[i].Fail? && h[i - 1].Fail?;
      }
      assert h[|init|].at - h[|init| - 1].at < FIVE_MINUTES;
    }
  }

  /** The stored count is the length of the longest chain of failures that ends the history. */
  lemma {:induction false} StoredCountIsLongestChain(h: seq<WindowEvent>, k: nat)
    ensures Chain(h, k) <==> k <= Play(h).attempts
  {
    AttemptsAreCounted(h);
    if h != [] && 0 < k <= |h| {
      var init, e := h[..|h| - 1], h[|h| - 1];
      assert h == init + [e];
      LastFailure(init);
      if e.Fail? {
        if k > 1 {
          ChainOfLonger(init, e.at, k);
          StoredCountIsLongestChain(init, k - 1);
        }
      } else {
        assert h[|h| - 1] == e;
      }
    }
  }

  /** Brute force is seen exactly when at least six chained failures end the history and the last of
      them is less than five minutes old. */
  lemma BruteForceIsSixInARow(h: seq<WindowEvent>, now: int)
    ensures BruteForce(Play(h), now)
            <==> Chain(h, 6) && now - h[|h| - 1].at < FIVE_MINUTES
  {
    StoredCountIsLongestChain(h, 6);
    LastFailure(h);
  }
}
