/**
 * The retry loop of `scanVerse` (App.tsx): up to three calls of the generator, a wait of
 * `2000 * attempts` ms after each failed call but the last, and a rethrow after the third failure.
 */
module RetryLoop {
  import opened Wrappers

  /** One call of the generator: it threw, or it answered with `response.text || ""`. */
  datatype Reply = Threw | Answered(text: string)

  const MaxAttempts: nat := 3

  /** The wait after the given number of failed attempts, in milliseconds. */
  function Backoff(attempts: nat): int {
    2000 * attempts
  }

  /** How the loop ends: the raw text (None when the last call threw), the calls made and the waits recorded. */
  datatype RetryResult = RetryResult(raw: Option<string>, calls: nat, waits: seq<int>)

  /**
   * The loop from the point where `attempts` calls have failed; `respond(k)` is the reply to call k.
   * It makes at most three calls, waits 2000 ms times the failure count between them, and ends
   * without text exactly when every remaining call threw.
   */
  function RetryFrom(respond: nat -> Reply, attempts: nat): (r: RetryResult)
    requires attempts < MaxAttempts
    ensures attempts < r.calls <= MaxAttempts
    ensures |r.waits| == r.calls - 1 - attempts
    ensures forall i :: 0 <= i < |r.waits| ==> r.waits[i] == Backoff(attempts + 1 + i)
    ensures forall k :: attempts <= k < r.calls - 1 ==> respond(k).Threw?
    ensures r.raw.Some? ==> respond(r.calls - 1) == Answered(r.raw.value)
    ensures r.raw.None? ==> r.calls == MaxAttempts && respond(MaxAttempts - 1).Threw?
    decreases MaxAttempts - attempts
  {
    match respond(attempts)
    case Answered(text) => RetryResult(Some(text), attempts + 1, [])
    case Threw =>
      if attempts + 1 < MaxAttempts then
        var rest := RetryFrom(respond, attempts + 1);
        RetryResult(rest.raw, rest.calls, [Backoff(attempts + 1)] + rest.waits)
      else
        RetryResult(None, attempts + 1, [])
  }

  function Retry(respond: nat -> Reply): RetryResult {
    RetryFrom(respond, 0)
  }

  /** The loop gives up exactly when all three calls threw; the waits are then 2000 and 4000 ms. */
  lemma RetryGivesUpOnlyAfterThreeFailures(respond: nat -> Reply)
    ensures Retry(respond).raw.None? <==> (forall k :: 0 <= k < MaxAttempts ==> respond(k).Threw?)
    ensures Retry(respond).raw.None? ==> Retry(respond).waits == [2000, 4000]
  {
    var r := Retry(respond);
    if r.raw.Some? {
      assert !respond(r.calls - 1).Threw?;
    }
  }

  /** The text kept is the first answer: the calls before it all threw. */
  lemma RetryKeepsFirstAnswer(respond: nat -> Reply, k: nat)
    requires k < MaxAttempts && respond(k).Answered?
    requires forall j :: 0 <= j < k ==> respond(j).Threw?
    ensures Retry(respond).raw == Some(respond(k).text)
    ensures Retry(respond).calls == k + 1
  {
    var r := Retry(respond);
    if r.calls - 1 < k {
      assert respond(r.calls - 1).Threw?;
    }
  }

  /**
   * The loop itself: `while (attempts < maxAttempts)` with `break` on an answer and a rethrow
   * (`failed`) after the last failure; `calls` counts generator calls and `waits` the delays passed to `wait`.
   */
  method RunAttempts(respond: nat -> Reply) returns (raw: Option<string>, calls: nat, waits: seq<int>)
    ensures RetryResult(raw, calls, waits) == Retry(respond)
  {
    var attempts := 0;
    calls := 0;
    waits := [];
    raw := None;
    while attempts < MaxAttempts
      invariant 0 <= attempts < MaxAttempts
      invariant calls == attempts && raw.None?
      invariant Retry(respond) == var rest := RetryFrom(respond, attempts);
        RetryResult(rest.raw, rest.calls, waits + rest.waits)
    {
      var reply := respond(attempts);
      calls := calls + 1;
      if reply.Answered? {
        assert RetryFrom(respond, attempts) == RetryResult(Some(reply.text), attempts + 1, []);
        assert waits + [] == waits;
        raw := Some(reply.text);
        return;
      }
      ghost var tried := attempts;
      attempts := attempts + 1;
      if attempts < MaxAttempts {
        var rest := RetryFrom(respond, attempts);
        assert RetryFrom(respond, tried) == RetryResult(rest.raw, rest.calls, [Backoff(attempts)] + rest.waits);
        assert waits + ([Backoff(attempts)] + rest.waits) == (waits + [Backoff(attempts)]) + rest.waits;
        waits := waits + [Backoff(attempts)];
        continue;
      }
      assert RetryFrom(respond, tried) == RetryResult(None, attempts, []);
      assert waits + [] == waits;
      return;
    }
  }
}
