/**
 * The manager's side of the expansion in `transitionToNode`
 * (src/flow/transition.js): the tweens and `delay`s started under the
 * transition's token, the timers firing in the order they are due, each
 * fired delay starting its tween, the old centre's collapse, and a newer
 * transition's `begin` that can cut all of this short.
 *
 * The staggered tasks are numbered in the order their `delay` is called
 * (shared, then former, then fresh).  With either stagger table the delays
 * never decrease along that order (a timer given a negative delay waits 0
 * ms, so a negative `D` makes them all 0), so the timers fire in it and the
 * delays that fired before a cancellation are always the first ones.
 */
module Stagger {
  import opened Wrappers
  import opened Cancellation

  /** The `n` consecutive handles from `first`. */
  function Span(first: nat, n: nat): (r: set<nat>)
  {
    if n == 0 then {} else Span(first, n - 1) + {first + n - 1}
  }

  lemma {:induction false} InSpan(first: nat, n: nat)
    ensures forall h :: h in Span(first, n) <==> first <= h < first + n
  {
    if n > 0 {
      InSpan(first, n - 1);
    }
  }

  lemma SpanStep(first: nat, n: nat)
    ensures Span(first, n + 1) == Span(first, n) + {first + n}
  {
  }

  /** The cancel callbacks of `n` consecutive `delay`s from timer `first`. */
  function Clears(first: nat, n: nat): (r: seq<Callback>)
    ensures |r| == n
  {
    if n == 0 then [] else Clears(first, n - 1) + [ClearTimer(first + n - 1)]
  }

  /** The cancel callbacks of `n` consecutive animations from `first`. */
  function Stops(first: nat, n: nat): (r: seq<Callback>)
    ensures |r| == n
  {
    if n == 0 then [] else Stops(first, n - 1) + [StopFrames(first + n - 1)]
  }

  /** The clear callback of every timer of the span, and of no other. */
  lemma {:induction false} ClearsSpan(first: nat, n: nat)
    ensures forall t :: ClearTimer(t) in Clears(first, n) <==> t in Span(first, n)
    ensures forall a :: StopFrames(a) !in Clears(first, n)
  {
    if n > 0 {
      ClearsSpan(first, n - 1);
      SpanStep(first, n - 1);
    }
  }

  /**
   * The delays that fired: `n` when the run was not cut short (`cut` is
   * `None`), otherwise the `k` that fired before the newer `begin`.
   */
  function Started(cut: Option<nat>, n: nat): (k: nat)
    ensures k <= n
    ensures cut.None? ==> k == n
    ensures cut.Some? ==> (k == n <==> cut.value >= n)
    ensures cut.Some? && cut.value < n ==> k == cut.value
  {
    if cut.Some? && cut.value < n then cut.value else n
  }

  /** One for a step that happens, none otherwise. */
  function Count(b: bool): nat {
    if b then 1 else 0
  }

  /**
   * What the expansion registers on its token, in order: the re-adopted
   * old centre's tween when `adopted`, one `delay` per task, the tweens
   * started by the first `k` delays, and the old centre's collapse when it
   * started.  Animations are numbered from `anim`, timers from `timer`.
   */
  function Registered(timer: nat, anim: nat, adopted: bool, n: nat, k: nat, collapse: bool): seq<Callback> {
    Stops(anim, Count(adopted)) + Clears(timer, n) + Stops(anim + Count(adopted), k + Count(collapse))
  }

  /**
   * However far the run got, the registrations hold a clear callback for
   * exactly the timers the staggered tasks were given, `timer` .. `timer + n - 1`.
   */
  lemma RegisteredTimers(timer: nat, anim: nat, adopted: bool, n: nat, k: nat, collapse: bool)
    ensures forall t: nat :: ClearTimer(t) in Registered(timer, anim, adopted, n, k, collapse) <==> timer <= t < timer + n
  {
    var lead := Stops(anim, Count(adopted));
    var trail := Stops(anim + Count(adopted), k + Count(collapse));
    assert Registered(timer, anim, adopted, n, k, collapse) == lead + Clears(timer, n) + trail;
    InSpan(timer, n);
    ClearsSpan(timer, n);
    StopsNoClear(anim, Count(adopted));
    StopsNoClear(anim + Count(adopted), k + Count(collapse));
    forall t ensures ClearTimer(t) in lead + Clears(timer, n) + trail <==> ClearTimer(t) in Clears(timer, n) {
      InConcat(ClearTimer(t), lead, Clears(timer, n), trail);
    }
  }

  /** Timers `lo` .. `hi - 1` are the ones registered after `before` and an animation's stop. */
  lemma Appended(cb: seq<Callback>, mid: seq<Callback>, before: seq<Callback>, a: nat, extra: seq<Callback>,
                 lo: nat, hi: nat)
    requires mid == before + [StopFrames(a)] && cb == mid + extra
    requires forall t: nat :: ClearTimer(t) in extra <==> lo <= t < hi
    ensures forall t: nat :: ClearTimer(t) in cb <==> ClearTimer(t) in before || lo <= t < hi
  {
    forall t: nat ensures ClearTimer(t) in cb <==> ClearTimer(t) in before || lo <= t < hi {
      InConcat(ClearTimer(t), before, [StopFrames(a)], extra);
    }
  }

  lemma InConcat<T>(x: T, a: seq<T>, b: seq<T>, c: seq<T>)
    ensures x in a + b + c <==> x in a || x in b || x in c
  {
  }

  /** Animations `first + n` .. continue the run of `first` .. `first + n - 1`. */
  lemma StopsSnoc(first: nat, n: nat, more: bool)
    ensures Stops(first, n) + Stops(first + n, Count(more)) == Stops(first, n + Count(more))
  {
    if more {
      assert Stops(first + n, 1) == [StopFrames(first + n)];
    }
  }

  lemma {:induction false} StopsNoClear(first: nat, n: nat)
    ensures forall t :: ClearTimer(t) !in Stops(first, n)
  {
    if n > 0 {
      StopsNoClear(first, n - 1);
    }
  }

  /** The registrations of the phases of a run, put together. */
  lemma Assemble(before: seq<Callback>, timer: nat, anim: nat, adopted: bool, n: nat, k: nat, collapse: bool)
    ensures before + Stops(anim, Count(adopted)) + Clears(timer, n) + Stops(anim + Count(adopted), k)
              + Stops(anim + Count(adopted) + k, Count(collapse))
            == before + Registered(timer, anim, adopted, n, k, collapse)
  {
    StopsSnoc(anim + Count(adopted), k, collapse);
  }

  /**
   * The synchronous start of the expansion: the re-adopted old centre's
   * tween, then one `delay` per staggered task.
   */
  method StartTasks(mgr: TransitionManager, token: Token, adopted: bool, n: nat)
    requires mgr.Valid()
    modifies mgr`pendingTimers, mgr`nextTimer, mgr`nextAnimation, mgr`active, token`cancelCallbacks
    ensures mgr.Valid()
    ensures mgr.nextTimer == old(mgr.nextTimer) + n
    ensures mgr.nextAnimation == old(mgr.nextAnimation) + (if adopted then 1 else 0)
    ensures mgr.pendingTimers == old(mgr.pendingTimers) + Span(old(mgr.nextTimer), n)
    ensures mgr.active == old(mgr.active) + (if adopted then {old(mgr.nextAnimation)} else {})
    ensures token.cancelCallbacks ==
      old(token.cancelCallbacks) + Stops(old(mgr.nextAnimation), Count(adopted)) + Clears(old(mgr.nextTimer), n)
  {
    if adopted {
      var _ := mgr.Tween(token);
      assert Stops(old(mgr.nextAnimation), 1) == [StopFrames(old(mgr.nextAnimation))];
    }
    ghost var callbacks := token.cancelCallbacks;
    ghost var pending := mgr.pendingTimers;
    var first := mgr.nextTimer;
    var i := 0;
    while i < n
      invariant 0 <= i <= n
      invariant mgr.Valid()
      invariant mgr.nextTimer == first + i
      invariant mgr.nextAnimation == old(mgr.nextAnimation) + (if adopted then 1 else 0)
      invariant mgr.active == old(mgr.active) + (if adopted then {old(mgr.nextAnimation)} else {})
      invariant mgr.pendingTimers == pending + Span(first, i)
      invariant token.cancelCallbacks == callbacks + Clears(first, i)
    {
      var _ := mgr.Delay(token);
      SpanStep(first, i);
      i := i + 1;
    }
  }

  /**
   * The first `k` delays fire, in the order they were started, and each
   * resolved delay starts its tween.
   */
  method FireTasks(mgr: TransitionManager, token: Token, first: nat, k: nat)
    requires mgr.Valid() && Span(first, k) <= mgr.pendingTimers
    modifies mgr`pendingTimers, mgr`nextAnimation, mgr`active, token`cancelCallbacks
    ensures mgr.Valid()
    ensures mgr.pendingTimers == old(mgr.pendingTimers) - Span(first, k)
    ensures mgr.nextAnimation == old(mgr.nextAnimation) + k
    ensures mgr.active == old(mgr.active) + Span(old(mgr.nextAnimation), k)
    ensures token.cancelCallbacks == old(token.cancelCallbacks) + Stops(old(mgr.nextAnimation), k)
  {
    var anim := mgr.nextAnimation;
    InSpan(first, k);
    var i := 0;
    while i < k
      invariant 0 <= i <= k
      invariant mgr.Valid()
      invariant mgr.nextAnimation == anim + i
      invariant mgr.pendingTimers == old(mgr.pendingTimers) - Span(first, i)
      invariant mgr.active == old(mgr.active) + Span(anim, i)
      invariant token.cancelCallbacks == old(token.cancelCallbacks) + Stops(anim, i)
    {
      SpanStep(first, i);
      SpanStep(anim, i);
      InSpan(first, i);
      InSpan(anim, i);
      var resolved := mgr.FireTimer(first + i);
      if resolved {
        var _ := mgr.Tween(token);
      }
      i := i + 1;
    }
  }

  /** The tracked tweens numbered `first` .. `first + n - 1` all settle. */
  method SettleAll(mgr: TransitionManager, first: nat, n: nat)
    requires mgr.Valid()
    modifies mgr`active
    ensures mgr.Valid()
    ensures mgr.active == old(mgr.active) - Span(first, n)
  {
    var i := 0;
    while i < n
      invariant 0 <= i <= n
      invariant mgr.Valid()
      invariant mgr.active == old(mgr.active) - Span(first, i)
    {
      SpanStep(first, i);
      mgr.Settle(first + i);
      i := i + 1;
    }
  }

  /**
   * The old centre's collapse (`followMovingAnchor` towards the clicked
   * node): a tracked tween that registers on the token and later settles.
   */
  method CollapseCenter(mgr: TransitionManager, token: Token)
    requires mgr.Valid()
    modifies mgr`nextAnimation, mgr`active, token`cancelCallbacks
    ensures mgr.Valid()
    ensures mgr.nextAnimation == old(mgr.nextAnimation) + 1 && mgr.active == old(mgr.active)
    ensures token.cancelCallbacks == old(token.cancelCallbacks) + Stops(old(mgr.nextAnimation), 1)
  {
    var a := mgr.Tween(token);
    mgr.Settle(a);
  }

  /**
   * The manager's life through an expansion with `n` staggered tasks, run
   * under the transition's `token`, which is current.  Undisturbed, every
   * delay fires, every tween settles and the old centre's collapse (when
   * `collapse`) follows them: the timers and the tracked set end as they
   * began and the token stays current and live.  When a newer transition
   * begins after `k` delays fired, that `begin` runs every callback
   * registered so far and clears every timer, and the call is `stalled`
   * exactly when one of its own timers was still pending then, since that
   * delay's promise never settles.  The old centre's collapse starts only
   * once every task is done: before the cancellation when `centerDone`
   * says it completed, otherwise after it, under the cancelled token.
   */
  method StaggerTasks(mgr: TransitionManager, token: Token, adopted: bool, n: nat, collapse: bool,
                 cut: Option<nat>, centerDone: bool) returns (stalled: bool)
    requires mgr.Valid() && mgr.currentToken == token
    modifies mgr`pendingTimers, mgr`nextTimer, mgr`nextAnimation, mgr`active, mgr`fired, mgr`currentToken, mgr`issued
    modifies token`cancelCallbacks, token`cancelled
    ensures mgr.Valid() && mgr.nextTimer == old(mgr.nextTimer) + n
    ensures token.cancelCallbacks == old(token.cancelCallbacks) +
      Registered(old(mgr.nextTimer), old(mgr.nextAnimation), adopted, n, Started(cut, n), collapse && Started(cut, n) == n)
    ensures stalled <==> cut.Some? && cut.value < n
    ensures cut.None? ==>
      (mgr.currentToken == token && token.cancelled == old(token.cancelled) &&
       mgr.issued == old(mgr.issued) && mgr.fired == old(mgr.fired) &&
       mgr.pendingTimers == old(mgr.pendingTimers) && mgr.active == old(mgr.active))
    ensures cut.Some? ==>
      (token.cancelled && mgr.currentToken != token && mgr.pendingTimers == {} && mgr.active == {} &&
       |mgr.issued| == |old(mgr.issued)| + 1 && old(mgr.issued) <= mgr.issued)
    ensures cut.Some? ==>
      mgr.fired == old(mgr.fired) + old(token.cancelCallbacks) +
        Registered(old(mgr.nextTimer), old(mgr.nextAnimation), adopted, n, Started(cut, n),
                   collapse && Started(cut, n) == n && centerDone)
  {
    var timer := mgr.nextTimer;
    var anim := mgr.nextAnimation;
    var k := Started(cut, n);
    Open(mgr, token, adopted, n, k);
    ghost var sofar := token.cancelCallbacks;
    if cut.None? {
      Complete(mgr, token, anim, adopted, k, collapse);
      Assemble(old(token.cancelCallbacks), timer, anim, adopted, n, k, collapse);
      stalled := false;
    } else {
      ghost var before := mgr.fired;
      stalled := Cut(mgr, token, timer, n, k, collapse, centerDone);
      Assemble(old(token.cancelCallbacks), timer, anim, adopted, n, k, collapse && k == n);
      Assemble(old(token.cancelCallbacks), timer, anim, adopted, n, k, collapse && k == n && centerDone);
      Regroup(before, sofar, Stops(anim + Count(adopted) + k, Count(collapse && k == n && centerDone)),
              old(token.cancelCallbacks), Registered(timer, anim, adopted, n, k, collapse && k == n && centerDone));
    }
  }

  lemma Regroup<T>(a: seq<T>, b: seq<T>, c: seq<T>, d: seq<T>, e: seq<T>)
    requires b + c == d + e
    ensures a + b + c == a + d + e
  {
    calc {
      a + b + c;
      a + (b + c);
      a + (d + e);
      a + d + e;
    }
  }

  /**
   * The expansion's start: the synchronous registrations, then the first
   * `k` delays firing and starting their tweens.
   */
  method Open(mgr: TransitionManager, token: Token, adopted: bool, n: nat, k: nat)
    requires mgr.Valid() && k <= n
    modifies mgr`pendingTimers, mgr`nextTimer, mgr`nextAnimation, mgr`active, token`cancelCallbacks
    ensures mgr.Valid()
    ensures mgr.nextTimer == old(mgr.nextTimer) + n
    ensures mgr.nextAnimation == old(mgr.nextAnimation) + Count(adopted) + k
    ensures token.cancelCallbacks == old(token.cancelCallbacks) + Stops(old(mgr.nextAnimation), Count(adopted))
      + Clears(old(mgr.nextTimer), n) + Stops(old(mgr.nextAnimation) + Count(adopted), k)
    ensures forall t :: t in mgr.pendingTimers <==>
      t in old(mgr.pendingTimers) || old(mgr.nextTimer) + k <= t < old(mgr.nextTimer) + n
    ensures forall t :: t in old(mgr.pendingTimers) ==> t < old(mgr.nextTimer)
    ensures forall a :: a in mgr.active <==>
      a in old(mgr.active) || (adopted && a == old(mgr.nextAnimation)) ||
      old(mgr.nextAnimation) + Count(adopted) <= a < old(mgr.nextAnimation) + Count(adopted) + k
    ensures forall a :: a in old(mgr.active) ==> a < old(mgr.nextAnimation)
  {
    var timer := mgr.nextTimer;
    var anim := mgr.nextAnimation;
    StartTasks(mgr, token, adopted, n);
    InSpan(timer, n);
    InSpan(timer, k);
    InSpan(anim + Count(adopted), k);
    FireTasks(mgr, token, timer, k);
  }

  /**
   * An undisturbed expansion after its delays fired: the tweens settle,
   * then the old centre's collapse, when there is one, runs and settles.
   */
  method Complete(mgr: TransitionManager, token: Token, anim: nat, adopted: bool, k: nat, collapse: bool)
    requires mgr.Valid()
    modifies mgr`nextAnimation, mgr`active, token`cancelCallbacks
    ensures mgr.Valid()
    ensures forall a :: a in mgr.active <==>
      a in old(mgr.active) && !(adopted && a == anim) && !(anim + Count(adopted) <= a < anim + Count(adopted) + k)
    ensures token.cancelCallbacks == old(token.cancelCallbacks) + Stops(old(mgr.nextAnimation), Count(collapse))
  {
    if adopted {
      mgr.Settle(anim);
    }
    SettleAll(mgr, anim + Count(adopted), k);
    InSpan(anim + Count(adopted), k);
    if collapse {
      CollapseCenter(mgr, token);
    }
  }

  /**
   * A newer transition begins after the first `k` of the `n` delays fired.
   * The old centre's collapse, which starts once every task is done, ran
   * before the cancellation when `centerDone` and otherwise starts after
   * it, under the cancelled token.  The call stalls exactly when one of its
   * timers was still pending when the newer `begin` cleared it.
   */
  method Cut(mgr: TransitionManager, token: Token, timer: nat, n: nat, k: nat, collapse: bool, centerDone: bool)
      returns (stalled: bool)
    requires mgr.Valid() && mgr.currentToken == token && k <= n
    requires forall t :: timer + k <= t < timer + n ==> t in mgr.pendingTimers
    requires forall t :: t in mgr.pendingTimers ==> t < timer || timer + k <= t
    modifies mgr`pendingTimers, mgr`nextAnimation, mgr`active, mgr`fired, mgr`currentToken, mgr`issued
    modifies token`cancelCallbacks, token`cancelled
    ensures mgr.Valid()
    ensures stalled <==> k < n
    ensures token.cancelled && mgr.currentToken != token && mgr.pendingTimers == {} && mgr.active == {}
    ensures |mgr.issued| == |old(mgr.issued)| + 1 && old(mgr.issued) <= mgr.issued
    ensures token.cancelCallbacks == old(token.cancelCallbacks) + Stops(old(mgr.nextAnimation), Count(collapse && k == n))
    ensures mgr.fired ==
      old(mgr.fired) + old(token.cancelCallbacks) + Stops(old(mgr.nextAnimation), Count(collapse && k == n && centerDone))
  {
    if collapse && k == n && centerDone {
      CollapseCenter(mgr, token);
    }
    InSpan(timer, n);
    // a delay of this call still pending when the newer `begin` clears it
    stalled := Span(timer, n) * mgr.pendingTimers != {};
    assert stalled <==> k < n by {
      if k < n {
        assert timer + k in Span(timer, n) * mgr.pendingTimers;
      }
    }
    var _ := mgr.Begin();
    if collapse && k == n && !centerDone {
      CollapseCenter(mgr, token);
    }
  }
}
