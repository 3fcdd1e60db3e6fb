/**
 When a secret may leave the fill host without asking again: a prompt answered
 "yes" opens a window of thirty seconds, for one site.
 */
module Confirming {
  import opened Protocol

  const CONFIRM_REUSE := 30 * SECOND

  /** Until when, and for which site, no prompt is needed. */
  datatype Window = Window(until: Option<Time>, scope: string)

  const SHUT := Window(None, "")

  /** One call: what it is for, when it comes, and how a prompt would be answered, and when. */
  datatype Ask = Ask(scope: string, reuse: bool, now: Time, ok: bool, answered: Time)

  datatype Verdict = Waived | Granted | Refused

  function Confirm(w: Window, a: Ask): (Window, Verdict) {
    if a.reuse && a.scope != "" && a.scope == w.scope && w.until.Some? && a.now < w.until.value then (w, Waived)
    else if !a.ok then (SHUT, Refused)
    else if a.reuse && a.scope != "" then (Window(Some(a.answered + CONFIRM_REUSE), a.scope), Granted)
    else (SHUT, Granted)
  }

  function WindowAfter(asks: seq<Ask>): Window {
    if asks == [] then SHUT
    else Confirm(WindowAfter(asks[..|asks| - 1]), asks[|asks| - 1]).0
  }

  function VerdictAt(asks: seq<Ask>, k: nat): Verdict
    requires k < |asks|
  {
    Confirm(WindowAfter(asks[..k]), asks[k]).1
  }

  /** The most recent call before the k-th that put up a prompt. */
  function LastPrompt(asks: seq<Ask>, k: nat): (j: Option<nat>)
    requires k <= |asks|
    ensures j.Some? ==> j.value < k && VerdictAt(asks, j.value) != Waived
    ensures forall i: nat :: (if j.Some? then j.value < i else true) && i < k ==> VerdictAt(asks, i) == Waived
  {
    if k == 0 then None
    else if VerdictAt(asks, k - 1) != Waived then Some(k - 1)
    else LastPrompt(asks, k - 1)
  }

  /** The window is what the last prompt left, whatever was waived since. */
  lemma {:induction false} WindowIsFromLastPrompt(asks: seq<Ask>, k: nat)
    requires k <= |asks|
    ensures
      var p := LastPrompt(asks, k);
      WindowAfter(asks[..k]) ==
      if p.Some? && asks[p.value].ok && asks[p.value].reuse && asks[p.value].scope != ""
      then Window(Some(asks[p.value].answered + CONFIRM_REUSE), asks[p.value].scope)
      else SHUT
  {
    if k > 0 {
      WindowIsFromLastPrompt(asks, k - 1);
      assert asks[..k][..k - 1] == asks[..k - 1];
    }
  }

  /** The last prompt before the k-th call still vouches for it. */
  predicate Vouched(asks: seq<Ask>, k: nat)
    requires k < |asks|
  {
    var p := LastPrompt(asks, k);
    && p.Some?
    && VerdictAt(asks, p.value) == Granted
    && asks[p.value].reuse
    && asks[p.value].scope == asks[k].scope
    && asks[k].now < asks[p.value].answered + 30_000_000_000
  }

  /**
   Over every sequence of calls: one passes without a prompt exactly when it asks for reuse on a named site, and
   the most recent prompt was granted with reuse, for that site, less than thirty seconds before. Calls waived
   in between do not lengthen that.
   */
  lemma WaivedIff(asks: seq<Ask>, k: nat)
    requires k < |asks|
    ensures VerdictAt(asks, k) == Waived <==> asks[k].reuse && asks[k].scope != "" && Vouched(asks, k)
  {
    WindowIsFromLastPrompt(asks, k);
  }

  /** A prompt that is put up says what the human said. */
  lemma PromptDecides(asks: seq<Ask>, k: nat)
    requires k < |asks| && VerdictAt(asks, k) != Waived
    ensures VerdictAt(asks, k) == (if asks[k].ok then Granted else Refused)
  {
  }

  /** A refusal leaves nothing standing: the call after it is not waived. */
  lemma RefusalShuts(asks: seq<Ask>, j: nat)
    requires j + 1 < |asks| && VerdictAt(asks, j) == Refused
    ensures VerdictAt(asks, j + 1) != Waived
  {
    WindowIsFromLastPrompt(asks, j + 1);
  }

  /** A later call does not change what earlier ones were told. */
  lemma VerdictsStand(asks: seq<Ask>, a: Ask, k: nat)
    requires k < |asks|
    ensures VerdictAt(asks + [a], k) == VerdictAt(asks, k)
  {
    assert (asks + [a])[..k] == asks[..k];
  }
}
