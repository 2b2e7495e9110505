/** The retry loops of the five clients: agent/lbro_agent.py `_ship_batch`,
    sdk/python/lbro_sdk.py `_request`, sdk/go/lbro.go `post`,
    sdk/java/LBROClient.java `post` and sdk/nodejs/lbro-sdk.js `_request`.

    Three loops sleep after a failed attempt unless it was the last, two sleep
    before every attempt but the first. Delays are exact: the retry count is taken
    within the width of Go's and Java's shifts. */
module Retry {
  import opened JsonEscape
  import JsonScan

  datatype Client = AgentPy | PythonSdk | GoSdk | JavaSdk | NodeSdk

  /** What an attempt meets: no answer, or the final HTTP status and the body. */
  datatype Response = NetworkError | Status(code: int, body: string)

  /** What Python's json module makes of a text. */
  datatype PythonJson = NotJson | JsonObject | OtherJson

  /** Fatal: an exception or error ends the exchange. */
  datatype Verdict = Success | Fatal | Retryable

  predicate SuccessCode(code: int) {
    200 <= code < 300
  }

  /** Whether a client gets through the body of a 2xx response; where it does not, an
      exception leaves its loop. Go and Node fall back to a default value. Which
      tokens are doubles makes no difference to Java (JsonScan.ParseOutcomeOnText). */
  predicate Reads(c: Client, body: string, python: string -> PythonJson) {
    match c
    case AgentPy => python(body) == JsonObject
    case PythonSdk => body == "" || python(body) != NotJson
    case GoSdk => true
    case JavaSdk => JsonScan.Parse(body, (s: string) => false).Ok?
    case NodeSdk => true
  }

  function AfterSuccess(c: Client, body: string, python: string -> PythonJson): Verdict {
    if Reads(c, body, python) then Success else Fatal
  }

  /** How each client reads a response. */
  function Classify(c: Client, r: Response, python: string -> PythonJson): Verdict {
    match r
    case NetworkError => Retryable
    case Status(code, body) =>
      if code == 401 || code == 422 then Fatal
      else if SuccessCode(code) then AfterSuccess(c, body, python)
      else
        match c
        case AgentPy => Retryable
        case PythonSdk => if code >= 500 then Retryable else Fatal
        case GoSdk => if code >= 500 then Retryable else Fatal
        case JavaSdk => Retryable
        case NodeSdk => if code < 400 then Success else Retryable
  }

  datatype Outcome = Delivered | Rejected | Exhausted

  /** The number of attempts made, the waits between them, and how it ended. */
  datatype Exchange = Exchange(attempts: nat, waits: seq<real>, outcome: Outcome)

  function Pow2(k: nat): int {
    if k == 0 then 1 else 2 * Pow2(k - 1)
  }

  /** How a client reads the response to each attempt. */
  function Verdicts(c: Client, script: nat -> Response, python: string -> PythonJson): nat -> Verdict {
    (k: nat) => Classify(c, script(k), python)
  }

  /** The attempt that ends the exchange: the first one that is not retryable, or the last allowed. */
  function LastAttempt(verdict: nat -> Verdict, n: nat, k: nat): (r: nat)
    requires k <= n
    ensures k <= r <= n
    ensures r == n || verdict(r) != Retryable
    ensures forall j: nat :: k <= j < r ==> verdict(j) == Retryable
    decreases n - k
  {
    if k == n || verdict(k) != Retryable then k else LastAttempt(verdict, n, k + 1)
  }

  /** The k-th wait. */
  function Wait(delay: real, k: nat): real {
    delay * Pow2(k) as real
  }

  /** delay * (2^k - 1) */
  function Total(delay: real, k: nat): real {
    delay * (Pow2(k) - 1) as real
  }

  /** delay, 2 * delay, 4 * delay, ... */
  function Backoff(delay: real, count: nat): (waits: seq<real>)
    ensures |waits| == count
  {
    if count == 0 then [] else Backoff(delay, count - 1) + [Wait(delay, count - 1)]
  }

  function OutcomeOf(v: Verdict): Outcome {
    match v case Success => Delivered case Fatal => Rejected case Retryable => Exhausted
  }

  /** One exchange with `n` retries; a negative count makes no attempt at all. */
  function Talk(verdict: nat -> Verdict, n: int, delay: real): Exchange {
    if n < 0 then Exchange(0, [], Exhausted)
    else
      var last := LastAttempt(verdict, n, 0);
      Exchange(last + 1, Backoff(delay, last), OutcomeOf(verdict(last)))
  }

  /** How the exchange ends when the loop stops at attempt k. */
  lemma EndsAt(verdict: nat -> Verdict, n: nat, delay: real, k: nat)
    requires k <= n && LastAttempt(verdict, n, 0) == LastAttempt(verdict, n, k)
    requires k == n || verdict(k) != Retryable
    ensures Talk(verdict, n, delay) == Exchange(k + 1, Backoff(delay, k), OutcomeOf(verdict(k)))
  {
  }

  /** Agent, Python and Node: sleep after a failure, unless it was the last attempt. */
  method SleepAfterFailure(c: Client, maxRetries: int, delay: real, script: nat -> Response,
                       python: string -> PythonJson)
    returns (e: Exchange)
    ensures e == Talk(Verdicts(c, script, python), maxRetries, delay)
  {
    var verdict := Verdicts(c, script, python);
    var waits := [];
    var attempt := 0;
    while attempt <= maxRetries
      invariant 0 <= attempt
      invariant attempt <= maxRetries ==>
                  waits == Backoff(delay, attempt)
                  && LastAttempt(verdict, maxRetries, attempt) == LastAttempt(verdict, maxRetries, 0)
      invariant maxRetries >= 0 && attempt > maxRetries ==>
                  Talk(verdict, maxRetries, delay) == Exchange(attempt, waits, Exhausted)
      invariant maxRetries < 0 ==> attempt == 0 && waits == []
    {
      var v := verdict(attempt);
      if v != Retryable || attempt == maxRetries {
        EndsAt(verdict, maxRetries, delay, attempt);
      }
      if v == Success {
        return Exchange(attempt + 1, waits, Delivered);
      } else if v == Fatal {
        return Exchange(attempt + 1, waits, Rejected);
      }
      if attempt < maxRetries {
        waits := waits + [Wait(delay, attempt)];
      }
      attempt := attempt + 1;
    }
    return Exchange(attempt, waits, Exhausted);
  }

  /** Go and Java: sleep before every attempt but the first. */
  method SleepBeforeAttempt(c: Client, maxRetries: int, delay: real, script: nat -> Response,
                       python: string -> PythonJson)
    returns (e: Exchange)
    ensures e == Talk(Verdicts(c, script, python), maxRetries, delay)
  {
    var verdict := Verdicts(c, script, python);
    var waits := [];
    var attempt := 0;
    while attempt <= maxRetries
      invariant 0 <= attempt
      invariant attempt == 0 ==> waits == []
      invariant attempt > 0 ==> waits == Backoff(delay, attempt - 1)
      invariant attempt <= maxRetries ==>
                  LastAttempt(verdict, maxRetries, attempt) == LastAttempt(verdict, maxRetries, 0)
      invariant maxRetries >= 0 && attempt > maxRetries ==>
                  Talk(verdict, maxRetries, delay) == Exchange(attempt, waits, Exhausted)
      invariant maxRetries < 0 ==> attempt == 0
    {
      if attempt > 0 {
        waits := waits + [Wait(delay, attempt - 1)];
      }
      assert waits == Backoff(delay, attempt);
      var v := verdict(attempt);
      if v != Retryable || attempt == maxRetries {
        EndsAt(verdict, maxRetries, delay, attempt);
      }
      if v == Success {
        return Exchange(attempt + 1, waits, Delivered);
      } else if v == Fatal {
        return Exchange(attempt + 1, waits, Rejected);
      }
      attempt := attempt + 1;
    }
    return Exchange(attempt, waits, Exhausted);
  }

  // ------------------------------------------------------------------ theorems

  function Sum(xs: seq<real>): real {
    if xs == [] then 0.0 else Sum(xs[..|xs| - 1]) + xs[|xs| - 1]
  }

  lemma {:induction false} BackoffSum(delay: real, count: nat)
    ensures Sum(Backoff(delay, count)) == Total(delay, count)
  {
    if count > 0 {
      assert Backoff(delay, count)[..count - 1] == Backoff(delay, count - 1);
      BackoffSum(delay, count - 1);
      TotalStep(delay, count);
    }
  }

  lemma TotalStep(delay: real, k: nat)
    requires k > 0
    ensures Total(delay, k) == Total(delay, k - 1) + Wait(delay, k - 1)
  {
  }

  /** delay, and then twice the one before. */
  ghost predicate Doubling(waits: seq<real>, delay: real) {
    && (waits != [] ==> waits[0] == delay)
    && forall k :: 0 < k < |waits| ==> waits[k] == 2.0 * waits[k - 1]
  }

  lemma {:induction false} BackoffDoubles(delay: real, count: nat)
    ensures Doubling(Backoff(delay, count), delay)
  {
    if count > 0 {
      BackoffDoubles(delay, count - 1);
      if count == 1 {
        assert Wait(delay, 0) == delay;
      } else {
        assert Backoff(delay, count - 1)[count - 2] == Wait(delay, count - 2);
        WaitDoubles(delay, count - 1);
      }
    }
  }

  lemma WaitDoubles(delay: real, k: nat)
    requires k > 0
    ensures Wait(delay, k) == 2.0 * Wait(delay, k - 1)
  {
  }

  /** Every client makes at most n+1 attempts, and k attempts cost exactly
      delay * (2^(k-1) - 1) of waiting, however the exchange ends. When every
      attempt fails retryably that is n+1 attempts and delay * (2^n - 1). */
  lemma WaitsAreGeometric(c: Client, n: nat, delay: real, script: nat -> Response, python: string -> PythonJson)
    ensures var e := Talk(Verdicts(c, script, python), n, delay);
            && 1 <= e.attempts <= n + 1
            && |e.waits| == e.attempts - 1
            && Sum(e.waits) == Total(delay, e.attempts - 1)
            && (e.outcome == Exhausted <==> forall k: nat :: k <= n ==> Classify(c, script(k), python) == Retryable)
            && (e.outcome == Exhausted ==> e.attempts == n + 1 && Sum(e.waits) == Total(delay, n))
  {
    var verdict := Verdicts(c, script, python);
    var last := LastAttempt(verdict, n, 0);
    BackoffSum(delay, last);
    assert forall k: nat :: verdict(k) == Classify(c, script(k), python);
  }

  /** The waits are d, 2d, 4d, ... */
  lemma WaitsDouble(c: Client, n: nat, delay: real, script: nat -> Response, python: string -> PythonJson)
    ensures Doubling(Talk(Verdicts(c, script, python), n, delay).waits, delay)
  {
    BackoffDoubles(delay, LastAttempt(Verdicts(c, script, python), n, 0));
  }

  // ------------------------------------------------------- what the responses decide

  /** No answer, or a server error. */
  predicate Outage(r: Response) {
    r.NetworkError? || r.code >= 500
  }

  /** While the server is down every client makes all its n+1 attempts, waits
      delay * (2^n - 1) in all, and gives up. */
  lemma OutageExhausts(c: Client, n: nat, delay: real, script: nat -> Response, python: string -> PythonJson)
    requires forall k: nat :: k <= n ==> Outage(script(k))
    ensures var e := Talk(Verdicts(c, script, python), n, delay);
            e.outcome == Exhausted && e.attempts == n + 1 && Sum(e.waits) == Total(delay, n)
  {
    WaitsAreGeometric(c, n, delay, script, python);
  }

  /** An outage that ends is survived: the first other response is the last attempt. */
  lemma OutageSurvived(c: Client, n: nat, delay: real, script: nat -> Response, python: string -> PythonJson, k: nat)
    requires k <= n && forall j: nat :: j < k ==> Outage(script(j))
    requires script(k).Status? && 200 <= script(k).code < 300 && Reads(c, script(k).body, python)
    ensures var e := Talk(Verdicts(c, script, python), n, delay);
            e.outcome == Delivered && e.attempts == k + 1 && Sum(e.waits) == Total(delay, k)
  {
    var verdict := Verdicts(c, script, python);
    StopsAt(verdict, n, 0, k);
    BackoffSum(delay, k);
  }

  lemma {:induction false} StopsAt(verdict: nat -> Verdict, n: nat, from: nat, k: nat)
    requires from <= k <= n && verdict(k) != Retryable && forall j: nat :: from <= j < k ==> verdict(j) == Retryable
    ensures LastAttempt(verdict, n, from) == k
    decreases k - from
  {
    if from < k {
      StopsAt(verdict, n, from + 1, k);
    }
  }

  /** A client takes an event for delivered only when the last response was a 2xx whose
      body it can read, or, for Node, any status below 400. */
  lemma DeliveredExactly(c: Client, n: nat, delay: real, script: nat -> Response, python: string -> PythonJson)
    ensures var e := Talk(Verdicts(c, script, python), n, delay);
            var last := script(e.attempts - 1);
            e.outcome == Delivered
            <==> last.Status? && ((200 <= last.code < 300 && Reads(c, last.body, python))
                                  || (c == NodeSdk && last.code < 400))
  {
  }

  /** 401 and 422 end the exchange at once, whatever the retries left. */
  lemma RejectedAtOnce(c: Client, n: nat, delay: real, script: nat -> Response, python: string -> PythonJson, k: nat)
    requires k <= n && forall j: nat :: j < k ==> Outage(script(j))
    requires script(k).Status? && (script(k).code == 401 || script(k).code == 422)
    ensures var e := Talk(Verdicts(c, script, python), n, delay);
            e.outcome == Rejected && e.attempts == k + 1
  {
    StopsAt(Verdicts(c, script, python), n, 0, k);
  }

  /** A body that the agent and Java can both read. */
  predicate AllRead(body: string, python: string -> PythonJson) {
    Reads(AgentPy, body, python) && Reads(JavaSdk, body, python)
  }

  /** The responses all five clients read alike. */
  predicate CommonGround(r: Response, python: string -> PythonJson) {
    || r.NetworkError? || r.code == 401 || r.code == 422 || r.code >= 500
    || (SuccessCode(r.code) && AllRead(r.body, python))
  }

  /** The clients agree on a response exactly when it is a network error, 401, 422,
      5xx, or 2xx with a body that the agent and Java can read. On another 2xx Go and
      Node succeed and whoever cannot read the body raises. On any other status
      Python and Go give up, the agent and Java retry, and Node retries from 400 and
      succeeds below. */
  lemma ClientsAgreeExactly(r: Response, python: string -> PythonJson)
    ensures (forall c1: Client, c2: Client :: Classify(c1, r, python) == Classify(c2, r, python))
       <==> CommonGround(r, python)
    ensures !CommonGround(r, python) && SuccessCode(r.code) ==>
              && Classify(GoSdk, r, python) == Classify(NodeSdk, r, python) == Success
              && (Classify(AgentPy, r, python) == Fatal || Classify(JavaSdk, r, python) == Fatal)
    ensures !CommonGround(r, python) && !SuccessCode(r.code) ==>
              && Classify(PythonSdk, r, python) == Classify(GoSdk, r, python) == Fatal
              && Classify(AgentPy, r, python) == Classify(JavaSdk, r, python) == Retryable
              && Classify(NodeSdk, r, python) == if r.code < 400 then Success else Retryable
  {
    if !CommonGround(r, python) {
      if SuccessCode(r.code) {
        assert Classify(AgentPy, r, python) == Fatal || Classify(JavaSdk, r, python) == Fatal;
        assert Classify(GoSdk, r, python) == Success;
      } else {
        assert Classify(GoSdk, r, python) == Fatal;
        assert Classify(JavaSdk, r, python) == Retryable;
      }
    }
  }

  /** On a legal one-string object Java raises if and only if, in the string, only
      commas and white space follow the first escaped quote. */
  lemma JavaRaisesExactly(key: string, b: string, code: int, python: string -> PythonJson)
    requires SuccessCode(code) && '"' !in key && ValidBody(b)
    ensures var r := Status(code, JsonScan.OneString(key, b));
            && (Classify(JavaSdk, r, python) == Fatal <==> JsonScan.OnlySeparatorsAfterQuote(b))
            && (Classify(JavaSdk, r, python) == Success <==> !JsonScan.OnlySeparatorsAfterQuote(b))
  {
    JsonScan.OneStringThrowsExactly(key, b, (s: string) => false);
  }

  /** Python's json module takes legal one-string objects for objects. */
  ghost predicate KnowsObjects(python: string -> PythonJson) {
    forall key, b :: ValidBody(key) && ValidBody(b) ==> python(JsonScan.OneString(key, b)) == JsonObject
  }

  /** So all five clients read the answer alike if and only if that is not so. */
  lemma ClientsAgreeOnOneString(key: string, b: string, code: int, python: string -> PythonJson)
    requires SuccessCode(code) && '"' !in key && ValidBody(key) && ValidBody(b) && KnowsObjects(python)
    ensures var r := Status(code, JsonScan.OneString(key, b));
            && (forall c: Client :: c != JavaSdk ==> Classify(c, r, python) == Success)
            && (CommonGround(r, python) <==> !JsonScan.OnlySeparatorsAfterQuote(b))
  {
    JavaRaisesExactly(key, b, code, python);
  }

  /** A delivered event on which only the Java client raises: the string in the answer
      ends in an escaped quote and a comma. */
  lemma JavaRaisesOnLegalAnswer(key: string, text: string, code: int, python: string -> PythonJson)
    requires SuccessCode(code) && KnowsObjects(python)
    requires '"' !in key && ValidBody(key) && '"' !in text && ValidBody(text)
    ensures var b := JsonScan.QuoteComma(text);
            var r := Status(code, JsonScan.OneString(key, b));
            && ValidBody(b)
            && Classify(JavaSdk, r, python) == Fatal
            && forall c: Client :: c != JavaSdk ==> Classify(c, r, python) == Success
  {
    JsonScan.QuoteCommaThrows(key, text, (s: string) => false);
    ClientsAgreeOnOneString(key, JsonScan.QuoteComma(text), code, python);
    JavaRaisesExactly(key, JsonScan.QuoteComma(text), code, python);
  }

  lemma {:induction false} SameLastAttempt(v1: nat -> Verdict, v2: nat -> Verdict, n: nat, k: nat)
    requires k <= n && forall j: nat :: j <= n ==> v1(j) == v2(j)
    ensures LastAttempt(v1, n, k) == LastAttempt(v2, n, k)
    decreases n - k
  {
  }

  /** On those responses the five clients, with either loop, behave identically. */
  lemma ClientsBehaveAlike(c1: Client, c2: Client, n: nat, delay: real, script: nat -> Response,
                           python: string -> PythonJson)
    requires forall j: nat :: j <= n ==> CommonGround(script(j), python)
    ensures Talk(Verdicts(c1, script, python), n, delay) == Talk(Verdicts(c2, script, python), n, delay)
  {
    forall j: nat | j <= n ensures Verdicts(c1, script, python)(j) == Verdicts(c2, script, python)(j) {
      ClientsAgreeExactly(script(j), python);
    }
    SameLastAttempt(Verdicts(c1, script, python), Verdicts(c2, script, python), n, 0);
  }
}
