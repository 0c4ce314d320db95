/**
 * The ordered first-success race over extractor outcomes, and the
 * concurrency setting of the external downloader.
 */
module Util {
  import opened Wrappers
  import opened Text

  // ---------------------------------------------------------------------
  // Ordered race

  /**
   * The outcome the race settles on, read in input order: the first `Ok`,
   * or, when every attempt failed, the last error.
   */
  function FirstOkOrLastErr<A, E>(results: seq<Result<A, E>>): Result<A, E>
    requires |results| > 0
  {
    if |results| == 1 || results[0].Ok? then results[0]
    else FirstOkOrLastErr(results[1..])
  }

  /**
   * `race_ordered_first_ok` once the attempts have been run: the buffered
   * stream yields their outcomes in input order, whatever order they
   * finished in, and the loop keeps the last error it saw and returns on the
   * first success.
   */
  method RaceOrderedFirstOk<A, E>(results: seq<Result<A, E>>) returns (r: Result<A, E>)
    requires |results| > 0
    ensures r == FirstOkOrLastErr(results)
  {
    var lastErr: Option<E> := None;
    var i := 0;
    while i < |results|
      invariant 0 <= i <= |results|
      invariant forall j :: 0 <= j < i ==> results[j].Err?
      invariant i == 0 <==> lastErr.None?
      invariant i > 0 ==> lastErr == Some(results[i - 1].error)
      invariant i < |results| ==> FirstOkOrLastErr(results) == FirstOkOrLastErr(results[i..])
      invariant i == |results| ==> FirstOkOrLastErr(results) == results[i - 1]
    {
      match results[i]
      case Ok(v) =>
        return Ok(v);
      case Err(e) =>
        lastErr := Some(e);
        if i + 1 < |results| {
          assert results[i..][1..] == results[i + 1..];
        } else {
          assert |results[i..]| == 1;
        }
        i := i + 1;
    }
    r := Err(lastErr.value);
  }

  /** When some attempt succeeds, the race returns the earliest success in input order. */
  lemma {:induction false} FirstOkWins<A, E>(results: seq<Result<A, E>>, i: nat)
    requires i < |results| && results[i].Ok?
    requires forall j :: 0 <= j < i ==> results[j].Err?
    ensures FirstOkOrLastErr(results) == results[i]
  {
    if i > 0 {
      FirstOkWins(results[1..], i - 1);
    }
  }

  /** When every attempt fails, the race returns the error of the last one. */
  lemma {:induction false} AllFailLastErr<A, E>(results: seq<Result<A, E>>)
    requires |results| > 0
    requires forall j :: 0 <= j < |results| ==> results[j].Err?
    ensures FirstOkOrLastErr(results) == results[|results| - 1]
  {
    if |results| > 1 {
      AllFailLastErr(results[1..]);
    }
  }

  /** The race succeeds exactly when some attempt succeeds. */
  lemma {:induction false} OkIffSomeOk<A, E>(results: seq<Result<A, E>>)
    requires |results| > 0
    ensures FirstOkOrLastErr(results).Ok? <==> exists j :: 0 <= j < |results| && results[j].Ok?
  {
    if |results| > 1 && results[0].Err? {
      OkIffSomeOk(results[1..]);
      if exists j :: 0 <= j < |results| && results[j].Ok? {
        var j :| 0 <= j < |results| && results[j].Ok?;
        assert results[1..][j - 1].Ok?;
      }
    }
  }

  /** Outcomes after the first success are never looked at. */
  lemma {:induction false} LaterIgnored<A, E>(results: seq<Result<A, E>>, i: nat, later: seq<Result<A, E>>)
    requires i < |results| && results[i].Ok?
    ensures FirstOkOrLastErr(results[..i + 1] + later) == FirstOkOrLastErr(results)
  {
    if i > 0 && results[0].Err? {
      assert (results[..i + 1] + later)[1..] == results[1..][..i] + later;
      LaterIgnored(results[1..], i - 1, later);
    } else if i > 0 {
      assert (results[..i + 1] + later)[0] == results[0];
    }
  }

  /** The race's own test: a later but faster success does not beat an earlier one. */
  lemma RaceExample()
    ensures FirstOkOrLastErr([Err(1), Ok(2), Ok(3)]) == Ok(2)
  {
    var rs: seq<Result<int, int>> := [Err(1), Ok(2), Ok(3)];
    assert rs[1..] == [Ok(2), Ok(3)];
  }

  // ---------------------------------------------------------------------
  // Downloader concurrency

  const DEFAULT_YTDLP_CONCURRENCY: nat := 1

  /**
   * The permit count of the downloader semaphore: the `YTDLP_CONCURRENCY`
   * variable parsed as a `usize` (`None` stands for an unset or non-Unicode
   * variable), and 1 when it is missing or does not parse.
   */
  function YtdlpConcurrency(env: Option<string>): (n: nat)
    ensures env.None? ==> n == DEFAULT_YTDLP_CONCURRENCY
    ensures env.Some? && ParseUnsigned(env.value, U64_MAX).None? ==> n == DEFAULT_YTDLP_CONCURRENCY
    ensures env.Some? && ParseUnsigned(env.value, U64_MAX).Some? ==> n == ParseUnsigned(env.value, U64_MAX).value
    ensures n <= U64_MAX
  {
    match env
    case None => DEFAULT_YTDLP_CONCURRENCY
    case Some(s) => ParseUnsigned(s, U64_MAX).GetOr(DEFAULT_YTDLP_CONCURRENCY)
  }

  /** Any `usize`, written in decimal, is taken as the concurrency. */
  lemma ConcurrencyRoundTrip(n: nat)
    requires n <= U64_MAX
    ensures YtdlpConcurrency(Some(NatToString(n))) == n
  {
    ParseNatToString(n, U64_MAX);
  }
}
