/** The retry loop of the SonarQube HTTP client (internal/sonarqube/client.go, function do). */
module HttpRetry {
  import opened Outcomes

  /** One HTTP attempt as doOnce reports it. The last field is None when the attempt had no error. */
  datatype Attempt = Attempt(body: string, isNetworkErr: bool, err: Option<string>) {
    /** No retry follows: the attempt succeeded, or the server answered with an error. */
    predicate Conclusive() {
      err.None? || !isNetworkErr
    }
  }

  datatype Reply = Answer(body: string, err: Option<string>) | Cancelled

  /** The waits used when the client has none configured, in milliseconds. */
  const DEFAULT_RETRY_DELAYS: seq<nat> := [500, 1000]

  function Delays(configured: Option<seq<nat>>): seq<nat> {
    if configured.None? then DEFAULT_RETRY_DELAYS else configured.value
  }

  /** The reply the caller deserves after n attempts, the last of which ended the loop. */
  function ReplyOf(last: Attempt): Reply {
    if last.Conclusive() then Answer(last.body, last.err) else Answer("", last.err)
  }

  /** Runs the attempts of one request. script(i) is what attempt i would do; cancelled(i) says that
      the context ended during wait i. */
  method Do(configured: Option<seq<nat>>, script: nat -> Attempt, cancelled: nat -> bool)
    returns (reply: Reply, attempts: nat, waits: seq<nat>)
    ensures 1 <= attempts <= 1 + |Delays(configured)|
    ensures waits <= if configured.None? then [500, 1000] else configured.value
    ensures |waits| == if reply.Cancelled? then attempts else attempts - 1
    ensures configured.None? ==> attempts <= 3
    ensures reply.Answer? && script(attempts - 1).isNetworkErr && script(attempts - 1).err.Some? ==>
              waits == if configured.None? then [500, 1000] else configured.value
    ensures forall i :: 0 <= i < attempts - 1 ==> script(i).isNetworkErr && script(i).err.Some?
    ensures forall i :: 0 <= i < attempts - 1 ==> !script(i).Conclusive() && !cancelled(i)
    ensures reply.Answer? ==>
              && Settles(script, attempts, |Delays(configured)|)
              && reply == ReplyOf(script(attempts - 1))
    ensures reply.Cancelled? ==>
              && cancelled(attempts - 1)
              && !script(attempts - 1).Conclusive()
              && attempts <= |Delays(configured)|
  {
    var retryDelays := Delays(configured);
    var current := script(0);
    attempts, waits := 1, [];
    if current.Conclusive() {
      return Answer(current.body, current.err), attempts, waits;
    }
    for i := 0 to |retryDelays|
      invariant attempts == i + 1 && waits == retryDelays[..i]
      invariant current == script(i) && !current.Conclusive()
      invariant forall j :: 0 <= j < i ==> !script(j).Conclusive() && !cancelled(j)
    {
      waits := waits + [retryDelays[i]];
      if cancelled(i) {
        return Cancelled, attempts, waits;
      }
      current := script(i + 1);
      attempts := attempts + 1;
      if current.Conclusive() {
        return Answer(current.body, current.err), attempts, waits;
      }
    }
    return Answer("", current.err), attempts, waits;
  }

  /** n attempts settle an uncancelled request: the ones before the last were network errors, and
      the last one is conclusive or there is no retry left. */
  ghost predicate Settles(script: nat -> Attempt, n: nat, retries: nat) {
    && 1 <= n <= 1 + retries
    && (forall i :: 0 <= i < n - 1 ==> !script(i).Conclusive())
    && (script(n - 1).Conclusive() || n == 1 + retries)
  }

  lemma SettlesOnce(script: nat -> Attempt, m: nat, n: nat, retries: nat)
    requires Settles(script, m, retries) && Settles(script, n, retries)
    ensures m == n
  {
  }

  /** Every script is settled by some number of attempts. */
  lemma {:induction false} SomethingSettles(script: nat -> Attempt, retries: nat) returns (n: nat)
    ensures Settles(script, n, retries)
  {
    n := 1;
    while !script(n - 1).Conclusive() && n < 1 + retries
      invariant 1 <= n <= 1 + retries
      invariant forall i :: 0 <= i < n - 1 ==> !script(i).Conclusive()
    {
      n := n + 1;
    }
  }

  /** What Do promises fixes the whole reply when nothing is cancelled. It is the answer of the first
      attempt that is not a network error; when every attempt up to the last allowed one is a network
      error, it is the error of that last attempt. */
  lemma UncancelledReplyIsDetermined(script: nat -> Attempt, retries: nat, reply: Reply, attempts: nat, first: nat)
    requires Settles(script, attempts, retries) && reply == ReplyOf(script(attempts - 1))
    requires forall i :: 0 <= i < first ==> !script(i).Conclusive()
    ensures first <= retries && script(first).Conclusive() ==>
              attempts == first + 1 && reply == Answer(script(first).body, script(first).err)
    ensures first > retries ==> attempts == 1 + retries && reply == Answer("", script(retries).err)
  {
    if first <= retries && script(first).Conclusive() {
      SettlesOnce(script, attempts, first + 1, retries);
    } else if first > retries {
      SettlesOnce(script, attempts, 1 + retries, retries);
    }
  }

  /** What ends the loop, in terms of what an attempt reports: success and every error that is not a
      network error, so an error the server answered with is never retried; a network error always is. */
  lemma RetriedExactly(script: nat -> Attempt, n: nat, retries: nat)
    requires Settles(script, n, retries)
    ensures script(0).err.None? || !script(0).isNetworkErr ==>
              n == 1 && ReplyOf(script(0)) == Answer(script(0).body, script(0).err)
    ensures forall i :: 0 <= i < n - 1 ==> script(i).err.Some? && script(i).isNetworkErr
    ensures script(n - 1).err.Some? && script(n - 1).isNetworkErr ==>
              n == 1 + retries && ReplyOf(script(n - 1)) == Answer("", script(n - 1).err)
  {
  }

  /** A client without configured waits gives up after three network errors. */
  lemma UnconfiguredMakesThreeAttempts(script: nat -> Attempt, n: nat)
    requires Settles(script, n, |Delays(None)|)
    requires forall i :: 0 <= i < 3 ==> script(i).err.Some? && script(i).isNetworkErr
    ensures n == 3
  {
    assert !script(0).Conclusive() && !script(1).Conclusive() && !script(2).Conclusive();
  }
}
