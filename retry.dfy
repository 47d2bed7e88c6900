/** `run_until_complete`: call the target until it returns a ready value.
    The target is opaque; it is modelled as the script of what its
    successive calls do: each one returns a value, raises an `Exception`
    (caught), or raises a `BaseException` that is not an `Exception` (not
    caught, so it leaves the loop). */
module Retry {
  import opened PyValue

  /** What one call `target(*args)` does. `Raise` is an exception derived
      from `Exception`, which `except Exception` catches; `Escape` is any
      other `BaseException` (`SystemExit`, `KeyboardInterrupt`,
      `GeneratorExit`), which nothing in the loop catches. */
  datatype Outcome = Raise | Escape | Return(value: Value)

  datatype Option<T> = None | Some(value: T)

  /** How the retry loop ends on a finite script. `Returned` carries the
      value handed back and the number of calls made; `Escaped` means the
      last of `calls` calls raised an exception that propagates out of
      `run_until_complete`; `StillWaiting` means the script ran out while the
      loop would still call again, holding the value `result` has then. */
  datatype Run = Returned(value: Value, calls: nat) | Escaped(calls: nat) | StillWaiting(result: Value)

  /** A call that ends the loop: it returned a ready value, or raised an
      exception that the loop does not catch. */
  predicate Ends(o: Outcome)
  {
    o.Escape? || (o.Return? && Ready(o.value))
  }

  /** Index of the first call in the script that ends the loop. */
  function FirstEnd(attempts: seq<Outcome>): (r: Option<nat>)
    ensures r.Some? ==> r.value < |attempts| && Ends(attempts[r.value])
    ensures r.Some? ==> forall j :: 0 <= j < r.value ==> !Ends(attempts[j])
    ensures r.None? <==> forall j :: 0 <= j < |attempts| ==> !Ends(attempts[j])
  {
    if attempts == [] then None
    else if Ends(attempts[0]) then Some(0)
    else match FirstEnd(attempts[1..])
      case None => None
      case Some(k) => Some(k + 1)
  }

  /** The value of `result` after the calls of `attempts`, starting from
      None: the last value returned; a call that raised leaves it as it was. */
  function LastResult(attempts: seq<Outcome>): Value
  {
    if attempts == [] then VNone
    else match attempts[|attempts| - 1]
      case Return(v) => v
      case _ => LastResult(attempts[..|attempts| - 1])
  }

  /** FirstEnd is pinned down by its contract: when the call at k ends the
      loop and no earlier one does, the first ending call is at k. */
  lemma FirstEndAt(attempts: seq<Outcome>, k: nat)
    requires k < |attempts| && Ends(attempts[k])
    requires forall j :: 0 <= j < k ==> !Ends(attempts[j])
    ensures FirstEnd(attempts) == Some(k)
  {
  }

  /** The retry loop over a script of calls. An `Exception` is swallowed and
      leaves `result` unchanged; any other `BaseException` propagates at
      once. Otherwise the loop stops at the first call returning a ready
      value and returns that value. */
  method RunUntilComplete(attempts: seq<Outcome>) returns (r: Run)
    ensures r.StillWaiting? <==> FirstEnd(attempts).None?
    ensures r.Returned? ==>
      r.calls == FirstEnd(attempts).value + 1 && attempts[r.calls - 1] == Return(r.value)
    ensures r.Returned? ==> Ready(r.value)
    ensures r.Escaped? ==> r.calls == FirstEnd(attempts).value + 1 && attempts[r.calls - 1] == Escape
    ensures r.StillWaiting? ==> r.result == LastResult(attempts) && NotReady(r.result)
  {
    var result := VNone;
    var i := 0;
    KeepsRetryingIffNotReady(result);
    while KeepsRetrying(result)
      invariant 0 <= i <= |attempts|
      invariant result == LastResult(attempts[..i])
      invariant forall j :: 0 <= j < i - 1 ==> !Ends(attempts[j])
      invariant i == 0 ==> NotReady(result)
      invariant i > 0 ==> (Ends(attempts[i - 1]) <==> Ready(result))
      invariant i > 0 ==> !attempts[i - 1].Escape?
      decreases |attempts| - i
    {
      KeepsRetryingIffNotReady(result);
      if i == |attempts| {
        assert attempts[..i] == attempts;
        return StillWaiting(result);
      }
      assert attempts[..i + 1][..i] == attempts[..i];
      if attempts[i].Escape? {
        FirstEndAt(attempts, i);
        return Escaped(i + 1);
      }
      if attempts[i].Return? {
        result := attempts[i].value;
      }
      i := i + 1;
    }
    KeepsRetryingIffNotReady(result);
    FirstEndAt(attempts, i - 1);
    return Returned(result, i);
  }

  /** A target whose every call raises an `Exception` never ends the loop, and
      `result` stays None. */
  lemma {:induction false} AlwaysRaisingNeverReturns(attempts: seq<Outcome>)
    requires forall j :: 0 <= j < |attempts| ==> attempts[j] == Raise
    ensures FirstEnd(attempts) == None
    ensures LastResult(attempts) == VNone
  {
    if attempts != [] {
      AlwaysRaisingNeverReturns(attempts[..|attempts| - 1]);
    }
  }

  /** A target whose first calls raise or return values that are not ready
      (None, an empty list, a partial tuple) is called again until its first
      ready value, and the loop returns that value and no earlier one. */
  lemma FalsyResultsAreRetried(prefix: seq<Outcome>, v: Value, rest: seq<Outcome>)
    requires forall j :: 0 <= j < |prefix| ==> prefix[j] == Raise || (prefix[j].Return? && NotReady(prefix[j].value))
    requires Ready(v)
    ensures FirstEnd(prefix + [Return(v)] + rest) == Some(|prefix|)
  {
    var s := prefix + [Return(v)] + rest;
    assert forall j :: 0 <= j < |prefix| ==> s[j] == prefix[j];
    FirstEndAt(s, |prefix|);
  }

  /** An exception that `except Exception` does not catch ends the loop at
      the call that raises it, after any number of caught exceptions and
      values that were not ready. */
  lemma UncaughtExceptionEndsRun(prefix: seq<Outcome>, rest: seq<Outcome>)
    requires forall j :: 0 <= j < |prefix| ==> prefix[j] == Raise || (prefix[j].Return? && NotReady(prefix[j].value))
    ensures FirstEnd(prefix + [Escape] + rest) == Some(|prefix|)
  {
    var s := prefix + [Escape] + rest;
    assert forall j :: 0 <= j < |prefix| ==> s[j] == prefix[j];
    FirstEndAt(s, |prefix|);
  }
}
