/**
 * The cancellable scheduling of src/flow/transition.js: the `PendingTimers`
 * set with `delay`/`clearAllDelays`, and the `TransitionManager` singleton
 * (the current token, the set of tracked animation promises, `begin`,
 * `cancelAll`, `track`).  Timer handles and promises are natural numbers; a
 * handle is issued by `delay` the way `setTimeout` returns a new one.
 */
module Cancellation {

  /** What a registered cancel callback does when run. */
  datatype Callback =
    | ClearTimer(timer: nat)      // `delay`: `clearTimeout(t); PendingTimers.delete(t)`
    | StopFrames(animation: nat)  // `rafProgress`: cancel the next frame and resolve

  /** `{ cancelled, cancelCallbacks }` as made by `newToken`. */
  class Token {
    var cancelled: bool
    var cancelCallbacks: seq<Callback>

    constructor ()
      ensures !cancelled && cancelCallbacks == []
    {
      cancelled := false;
      cancelCallbacks := [];
    }
  }

  /** The token, if any: the `token?.` of the source as a frame. */
  function Held(token: Token?): set<Token> {
    if token == null then {} else {token}
  }

  class TransitionManager {
    var currentToken: Token?
    var active: set<nat>
    var pendingTimers: set<nat>
    var nextTimer: nat
    var nextAnimation: nat
    /** Every token `begin` has handed out, oldest first. */
    ghost var issued: seq<Token>
    /** The callbacks run so far, in the order they ran. */
    ghost var fired: seq<Callback>

    /**
     * Pending timers and tracked animations are handles already issued; the
     * current token is the last one handed out, and every earlier one is
     * cancelled.
     */
    ghost predicate Valid()
      reads this, issued
    {
      && (forall t :: t in pendingTimers ==> t < nextTimer)
      && (forall a :: a in active ==> a < nextAnimation)
      && (issued == [] <==> currentToken == null)
      && (issued != [] ==> currentToken == issued[|issued| - 1])
      && (forall j :: 0 <= j < |issued| - 1 ==> issued[j].cancelled)
    }

    /** The module starts with no token, no timers and nothing tracked. */
    constructor ()
      ensures Valid()
      ensures currentToken == null && active == {} && pendingTimers == {}
      ensures issued == [] && fired == []
    {
      currentToken := null;
      active := {};
      pendingTimers := {};
      nextTimer := 0;
      nextAnimation := 0;
      issued := [];
      fired := [];
    }

    /**
     * `delay(ms, token)`: a new timer joins `PendingTimers` and, when there is
     * a token, one callback that clears it is appended to the token's list.
     * The delay length only decides when the timer fires, so it is not a
     * parameter: the caller fires timers with `FireTimer` in the order they
     * are due.
     */
    method Delay(token: Token?) returns (t: nat)
      requires Valid()
      modifies this`pendingTimers, this`nextTimer, Held(token)`cancelCallbacks
      ensures Valid()
      ensures t == old(nextTimer) && nextTimer == t + 1
      ensures t !in old(pendingTimers) && pendingTimers == old(pendingTimers) + {t}
      ensures token != null ==> token.cancelCallbacks == old(token.cancelCallbacks) + [ClearTimer(t)]
    {
      t := nextTimer;
      nextTimer := nextTimer + 1;
      pendingTimers := pendingTimers + {t};
      if token != null {
        token.cancelCallbacks := token.cancelCallbacks + [ClearTimer(t)];
      }
    }

    /**
     * The `setTimeout` callback of `delay`: a timer that is still pending
     * leaves the set and its promise resolves; a cleared one never fires.
     */
    method FireTimer(t: nat) returns (resolved: bool)
      requires Valid()
      modifies this`pendingTimers
      ensures Valid()
      ensures resolved <==> t in old(pendingTimers)
      ensures pendingTimers == old(pendingTimers) - {t}
    {
      resolved := t in pendingTimers;
      pendingTimers := pendingTimers - {t};
    }

    /** `clearAllDelays`: every pending timer is cleared. */
    method ClearAllDelays()
      requires Valid()
      modifies this`pendingTimers
      ensures Valid()
      ensures pendingTimers == {}
    {
      pendingTimers := {};
    }

    /**
     * `rafProgress(duration, onUpdate, token)`: a new animation starts and,
     * when there is a token, registers its `cancel` on it.
     */
    method RafProgress(token: Token?) returns (a: nat)
      requires Valid()
      modifies this`nextAnimation, Held(token)`cancelCallbacks
      ensures Valid()
      ensures a == old(nextAnimation) && nextAnimation == a + 1 && a !in active
      ensures token != null ==> token.cancelCallbacks == old(token.cancelCallbacks) + [StopFrames(a)]
    {
      a := nextAnimation;
      nextAnimation := nextAnimation + 1;
      if token != null {
        token.cancelCallbacks := token.cancelCallbacks + [StopFrames(a)];
      }
    }

    /**
     * `tweenPosition` and `followMovingAnchor`: an animation started with
     * `rafProgress` whose promise is tracked until it settles.
     */
    method Tween(token: Token?) returns (a: nat)
      requires Valid()
      modifies this`nextAnimation, this`active, Held(token)`cancelCallbacks
      ensures Valid()
      ensures a == old(nextAnimation) && nextAnimation == a + 1
      ensures a !in old(active) && active == old(active) + {a}
      ensures token != null ==> token.cancelCallbacks == old(token.cancelCallbacks) + [StopFrames(a)]
    {
      a := RafProgress(token);
      Track(a);
    }

    /** Running one cancel callback. */
    method Run(cb: Callback)
      modifies this`pendingTimers, this`fired
      ensures fired == old(fired) + [cb]
      ensures pendingTimers == if cb.ClearTimer? then old(pendingTimers) - {cb.timer} else old(pendingTimers)
    {
      if cb.ClearTimer? {
        pendingTimers := pendingTimers - {cb.timer};
      }
      fired := fired + [cb];
    }

    /**
     * `cancelAll`: clear every timer, mark the current token cancelled and run
     * its callbacks in registration order, then forget every tracked promise.
     * The callbacks stay on the token and the token stays current, so a second
     * `cancelAll` runs the same callbacks again.
     */
    method CancelAll()
      requires Valid()
      modifies this`pendingTimers, this`active, this`fired, Held(currentToken)`cancelled
      ensures Valid()
      ensures pendingTimers == {} && active == {}
      ensures currentToken == old(currentToken) && issued == old(issued)
      ensures currentToken != null ==> currentToken.cancelled
      ensures currentToken != null ==> currentToken.cancelCallbacks == old(currentToken.cancelCallbacks)
      ensures fired == old(fired) + (if currentToken != null then currentToken.cancelCallbacks else [])
    {
      ClearAllDelays();
      if currentToken != null {
        currentToken.cancelled := true;
        var callbacks := currentToken.cancelCallbacks;
        var i := 0;
        while i < |callbacks|
          invariant 0 <= i <= |callbacks|
          invariant pendingTimers == {} && currentToken.cancelled
          invariant fired == old(fired) + callbacks[..i]
        {
          assert callbacks[..i + 1] == callbacks[..i] + [callbacks[i]];
          Run(callbacks[i]);
          i := i + 1;
        }
        assert callbacks[..i] == callbacks;
      }
      active := {};
    }

    /**
     * `begin`: cancel everything under the current token, then install and
     * return a new token that is not cancelled and has no callbacks.
     */
    method Begin() returns (token: Token)
      requires Valid()
      modifies this`pendingTimers, this`active, this`fired, this`currentToken, this`issued, Held(currentToken)`cancelled
      ensures Valid()
      ensures fresh(token) && currentToken == token && issued == old(issued) + [token]
      ensures !token.cancelled && token.cancelCallbacks == []
      ensures old(currentToken) != null ==> old(currentToken).cancelled
      ensures pendingTimers == {} && active == {}
      ensures fired == old(fired) + (if old(currentToken) != null then old(currentToken.cancelCallbacks) else [])
      ensures forall j :: 0 <= j < |issued| ==> (issued[j].cancelled <==> j < |issued| - 1)
    {
      CancelAll();
      token := new Token();
      currentToken := token;
      issued := issued + [token];
    }

    /** `track(p)`: the promise is tracked until it settles. */
    method Track(p: nat)
      requires Valid() && p < nextAnimation
      modifies this`active
      ensures Valid()
      ensures active == old(active) + {p}
    {
      active := active + {p};
    }

    /** The `finally` handler installed by `track`. */
    method Settle(p: nat)
      requires Valid()
      modifies this`active
      ensures Valid()
      ensures active == old(active) - {p}
    {
      active := active - {p};
    }
  }
}
