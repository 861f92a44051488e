/**
 * `downloader.py`: a session whose four verbs share one bounded retry loop.
 * Each call tries at most `retries` times, retries only on a connection error,
 * and raises `DownloaderError` once the budget is spent.
 */
module Downloading {
  import opened Wrappers

  /** The HTTP verb; every verb runs the same loop around its session call. */
  datatype Verb = Get | Post | Put | Delete

  datatype Response = Response(status: int, content: string)

  /** What one session call does: answers, fails to connect, or raises something else. */
  datatype Outcome = Answered(response: Response) | ConnectionError | OtherError(name: string)

  /** Why a call gave no response: the retry budget ran out, or a non-connection error propagated. */
  datatype Failure = DownloaderError | Raised(name: string)

  /** The outcome of the k-th attempt of one call (k from 0). */
  type Attempts = nat -> Outcome

  const DefaultRetries := 10

  /**
   * The loop with `left` tries remaining, the next attempt being number `k`:
   * the result and the number of attempts made in all.
   */
  function Run(left: int, k: nat, attempt: Attempts): (Result<Response, Failure>, nat)
    decreases if left > 0 then left else 0
  {
    if left <= 0 then (Err(DownloaderError), k)
    else match attempt(k)
      case Answered(resp) => (Ok(resp), k + 1)
      case ConnectionError => Run(left - 1, k + 1, attempt)
      case OtherError(name) => (Err(Raised(name)), k + 1)
  }

  /** The call's budget as the loop counts it: a non-positive budget allows no attempt. */
  function Budget(retries: int): nat
  {
    if retries > 0 then retries else 0
  }

  /**
   * What a call returns: every attempt but the last failed to connect; the
   * last answered, raised something else, or used up the budget.
   */
  lemma {:induction false} RunSpec(left: int, k: nat, attempt: Attempts)
    ensures var (r, made) := Run(left, k, attempt);
      k <= made <= k + Budget(left)
      && (forall j :: k <= j < made - 1 ==> attempt(j).ConnectionError?)
      && (r.Ok? ==> made > k && attempt(made - 1) == Answered(r.value))
      && (r == Err(DownloaderError) <==>
            made == k + Budget(left) && forall j :: k <= j < made ==> attempt(j).ConnectionError?)
      && (r.Err? && r.error.Raised? ==> made > k && attempt(made - 1) == OtherError(r.error.name))
    decreases if left > 0 then left else 0
  {
    if left > 0 && attempt(k).ConnectionError? {
      RunSpec(left - 1, k + 1, attempt);
    }
  }

  /** Each connection error spends exactly one unit of the budget. */
  lemma RunAfterConnectionError(left: int, k: nat, attempt: Attempts)
    requires left > 0 && attempt(k).ConnectionError?
    ensures Run(left, k, attempt) == Run(left - 1, k + 1, attempt)
  {
  }

  /** With a budget of zero or less the call raises at once, without trying. */
  lemma RunWithoutBudget(left: int, k: nat, attempt: Attempts)
    requires left <= 0
    ensures Run(left, k, attempt) == (Err(DownloaderError), k)
  {
  }

  /** `Downloader(retries=10)`: a session with its retry budget. */
  class Downloader {
    const retries: int

    constructor (retries: int)
      ensures this.retries == retries
    {
      this.retries := retries;
    }

    /**
     * `get`/`post`/`put`/`delete`: the same counter loop around one session call
     * of the given verb.
     */
    method Send(verb: Verb, attempt: Attempts) returns (r: Result<Response, Failure>, made: nat)
      ensures (r, made) == Run(retries, 0, attempt)
      ensures made <= Budget(retries)
      ensures forall j :: 0 <= j < made - 1 ==> attempt(j).ConnectionError?
      ensures r.Ok? ==> made > 0 && attempt(made - 1) == Answered(r.value)
      ensures r.Err? && r.error.Raised? ==> made > 0 && attempt(made - 1) == OtherError(r.error.name)
      ensures r == Err(DownloaderError) <==>
                made == Budget(retries) && forall j :: 0 <= j < made ==> attempt(j).ConnectionError?
    {
      var left := retries;
      made := 0;
      while left > 0
        invariant (made == retries - left && left <= retries) || (retries <= 0 && left == retries && made == 0)
        invariant Run(retries, 0, attempt) == Run(left, made, attempt)
        decreases left
      {
        match attempt(made)
        case Answered(resp) =>
          RunSpec(retries, 0, attempt);
          return Ok(resp), made + 1;
        case OtherError(name) =>
          RunSpec(retries, 0, attempt);
          return Err(Raised(name)), made + 1;
        case ConnectionError =>
          left := left - 1;
          made := made + 1;
      }
      RunSpec(retries, 0, attempt);
      r := Err(DownloaderError);
    }
  }
}
