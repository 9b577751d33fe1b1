/** Sending to the Service Log with token refresh: a post that is rejected as
    unauthorized fetches a new token, waiting twice as long after every failure, and
    is then sent again (service_log_producer.go). */
module ServiceLogProducer {
  import opened Wrappers

  datatype Response = Status(code: int) | NoResponse

  const UNAUTHORIZED := 401
  const CREATED := 201

  // What the producer does, in order. The token of a post is the one in its header.
  datatype Step = Post(token: string, response: Response) | Ask(answer: Option<string>) | Sleep(duration: int)

  // ----- refreshing -----

  /** How often a token can be asked for before the delay reaches the threshold. */
  function Attempts(delay: int, threshold: int): (n: nat)
    requires delay > 0
    ensures n >= 1
    decreases if delay < threshold then threshold - delay else 0
  {
    if delay >= threshold then 1 else 1 + Attempts(2 * delay, threshold)
  }

  function Doubled(delay: int, n: nat): (r: int)
    ensures delay > 0 ==> r > 0
    decreases n
  {
    if n == 0 then delay else Doubled(2 * delay, n - 1)
  }

  /** n requests for a token, the last one answered so, the others refused. */
  function Asking(delay: int, n: nat, answer: Option<string>): seq<Step>
    decreases n
  {
    if n <= 1 then [Ask(answer)] else [Ask(None), Sleep(delay)] + Asking(2 * delay, n - 1, answer)
  }

  // ----- a whole call -----

  // How a call of ProduceMessage goes: it ends with a post, or it gives up asking,
  // or it gets a token and starts over.
  datatype Call =
    | Final(token: string, response: Response)
    | GaveUp(token: string, delay: int, asked: nat)
    | Again(token: string, delay: int, asked: nat, fetched: string, rest: Call)

  function Steps(call: Call): seq<Step> {
    match call
    case Final(token, response) => [Post(token, response)]
    case GaveUp(token, delay, n) => [Post(token, Status(UNAUTHORIZED))] + Asking(delay, n, None)
    case Again(token, delay, n, fetched, rest) =>
      [Post(token, Status(UNAUTHORIZED))] + Asking(delay, n, Some(fetched)) + Steps(rest)
  }

  /** How many posts and requests for a token a call takes. */
  function Posts(call: Call): nat {
    if call.Again? then 1 + Posts(call.rest) else 1
  }

  function Requests(call: Call): nat {
    match call
    case Final(_, _) => 0
    case GaveUp(_, _, n) => n
    case Again(_, _, n, _, rest) => n + Requests(rest)
  }

  predicate Succeeds(call: Call) {
    match call
    case Final(_, response) => response == Status(CREATED)
    case GaveUp(_, _, _) => false
    case Again(_, _, _, _, rest) => Succeeds(rest)
  }

  /** The delay the producer is left with. */
  function DelayAfter(call: Call, delay: int): int {
    match call
    case Final(_, _) => delay
    case GaveUp(_, d, n) => if n == 0 then d else Doubled(d, n - 1)
    case Again(_, _, _, _, rest) => DelayAfter(rest, delay)
  }

  /** The protocol: the first post carries the current token, only a 401 is tried again,
      each time with the token just fetched and the delay reset, and the producer gives
      up only when a request fails with the delay at the threshold. */
  predicate Follows(call: Call, token: string, delay: int, startDelay: int, threshold: int)
    requires delay > 0 && startDelay > 0
  {
    && call.token == token
    && match call
       case Final(_, response) => response != Status(UNAUTHORIZED)
       case GaveUp(_, d, n) => d == delay && n == Attempts(delay, threshold)
       case Again(_, d, n, fetched, rest) =>
         d == delay && 1 <= n <= Attempts(delay, threshold) && Follows(rest, fetched, startDelay, startDelay, threshold)
  }

  // ----- the world's answers -----

  // What the n-th post and the n-th request for a token get.
  datatype World = World(post: nat -> Response, getTokens: nat -> Option<string>)

  /** How many requests are refused, out of so many, before a token comes. */
  function Refusals(w: World, asked: nat, limit: nat): (n: nat)
    ensures n <= limit
    decreases limit
  {
    if limit == 0 || w.getTokens(asked).Some? then 0 else 1 + Refusals(w, asked + 1, limit - 1)
  }

  /** The call is the one that this world makes of it, from its next post and request on. */
  predicate Plays(call: Call, w: World, posts: nat, asked: nat, delay: int, startDelay: int, threshold: int)
    requires delay > 0 && startDelay > 0
  {
    match call
    case Final(_, response) => w.post(posts) == response != Status(UNAUTHORIZED)
    case GaveUp(_, _, n) =>
      && w.post(posts) == Status(UNAUTHORIZED)
      && n == Attempts(delay, threshold) == Refusals(w, asked, Attempts(delay, threshold))
    case Again(_, _, n, fetched, rest) =>
      && w.post(posts) == Status(UNAUTHORIZED)
      && n == 1 + Refusals(w, asked, Attempts(delay, threshold)) <= Attempts(delay, threshold)
      && w.getTokens(asked + n - 1) == Some(fetched)
      && Plays(rest, w, posts + 1, asked + n, startDelay, startDelay, threshold)
  }

  /** Within so many posts, one is not answered 401, or no token comes in time. */
  predicate Ends(w: World, posts: nat, asked: nat, delay: int, startDelay: int, threshold: int, bound: nat)
    requires delay > 0 && startDelay > 0
    decreases bound
  {
    bound > 0 &&
    (|| w.post(posts) != Status(UNAUTHORIZED)
     || var k := Refusals(w, asked, Attempts(delay, threshold));
        k == Attempts(delay, threshold)
        || Ends(w, posts + 1, asked + k + 1, startDelay, startDelay, threshold, bound - 1))
  }

  class Producer {
    const world: World
    const startDelay: int
    const threshold: int
    var accessToken: string
    var delay: int
    var posts: nat
    var asked: nat
    ghost var trace: seq<Step>

    ghost predicate Valid()
      reads this
    {
      startDelay > 0 && (delay == startDelay || (delay >= threshold && delay > 0))
    }

    constructor (world: World)
      ensures Valid() && this.world == world
      ensures startDelay == 1_000_000_000 && threshold == 30_000_000_000 && delay == startDelay
      ensures accessToken == "" && posts == 0 && asked == 0 && trace == []
    {
      this.world := world;
      startDelay, threshold, delay := SECOND, 30 * SECOND, SECOND;
      accessToken, posts, asked, trace := "", 0, 0, [];
    }

    /** New: the delays start at one second and stop at thirty, and a first token is asked
        for; the producer is returned also when there is none, with the error. */
    static method New(world: World) returns (prod: Producer, err: bool)
      ensures fresh(prod) && prod.Valid() && prod.world == world
      ensures prod.startDelay == 1_000_000_000 && prod.threshold == 30_000_000_000 && prod.delay == prod.startDelay
      ensures prod.trace == [Ask(world.getTokens(0))] && prod.asked == 1 && prod.posts == 0
      ensures err == world.getTokens(0).None?
      ensures prod.accessToken == if err then "" else world.getTokens(0).value
    {
      prod := new Producer(world);
      err := prod.RefreshToken();
    }

    method RefreshToken() returns (err: bool)
      modifies this`accessToken, this`asked, this`trace
      ensures asked == old(asked) + 1 && trace == old(trace) + [Ask(world.getTokens(old(asked)))]
      ensures err == world.getTokens(old(asked)).None?
      ensures accessToken == if err then old(accessToken) else world.getTokens(old(asked)).value
    {
      var answer := world.getTokens(asked);
      asked := asked + 1;
      trace := trace + [Ask(answer)];
      if answer.None? {
        return true;
      }
      accessToken := answer.value;
      return false;
    }

    /** The refresh loop. It always ends: on the first token, or with a failure when all
        the attempts that the delay allows have been refused. */
    method RefreshWithRetries() returns (err: bool, ghost n: nat)
      requires delay > 0
      modifies this`accessToken, this`asked, this`trace, this`delay
      ensures 1 <= n <= Attempts(old(delay), threshold) && asked == old(asked) + n
      ensures err ==> n == Attempts(old(delay), threshold) && accessToken == old(accessToken)
      ensures err <==> world.getTokens(asked - 1).None?
      ensures forall i :: old(asked) <= i < asked - 1 ==> world.getTokens(i).None?
      ensures !err ==> accessToken == world.getTokens(asked - 1).value
      ensures trace == old(trace) + Asking(old(delay), n, world.getTokens(asked - 1))
      ensures delay == Doubled(old(delay), n - 1)
    {
      hide Asking, Doubled;
      n := 1;
      AskOnce(delay, world.getTokens(asked));
      err := RefreshToken();
      while err
        invariant delay > 0 && n >= 1 && asked == old(asked) + n
        invariant n - 1 + Attempts(delay, threshold) == Attempts(old(delay), threshold)
        invariant err == world.getTokens(asked - 1).None?
        invariant forall i :: old(asked) <= i < asked - 1 ==> world.getTokens(i).None?
        invariant accessToken == if err then old(accessToken) else world.getTokens(asked - 1).value
        invariant trace == old(trace) + Asking(old(delay), n, world.getTokens(asked - 1))
        invariant delay == Doubled(old(delay), n - 1)
        decreases err, if delay < threshold then threshold - delay else 0
      {
        if delay >= threshold {
          return;
        }
        AskOnceMore(old(delay), n, world.getTokens(asked));
        DoubledOnce(old(delay), n - 1);
        trace := trace + [Sleep(delay)];
        err := RefreshToken();
        delay := 2 * delay;
        n := n + 1;
      }
    }

    /** ProduceMessage, in a world that makes it end; CallsEndIff says that in any other the
        source goes on for ever. */
    method ProduceMessage(ghost bound: nat) returns (ok: bool, ghost call: Call)
      requires Valid() && Ends(world, posts, asked, delay, startDelay, threshold, bound)
      modifies this`accessToken, this`asked, this`trace, this`delay, this`posts
      ensures Valid()
      ensures Plays(call, world, old(posts), old(asked), old(delay), startDelay, threshold)
      ensures Follows(call, old(accessToken), old(delay), startDelay, threshold)
      ensures trace == old(trace) + Steps(call)
      ensures ok == Succeeds(call)
      ensures posts == old(posts) + Posts(call) && asked == old(asked) + Requests(call)
      ensures delay == DelayAfter(call, if call.Again? then startDelay else old(delay))
      decreases bound
    {
      hide Asking, Attempts, Doubled, Refusals;
      var response := world.post(posts);
      var token := accessToken;
      ghost var before := delay;
      posts := posts + 1;
      trace := trace + [Post(token, response)];
      if response == Status(UNAUTHORIZED) {
        var err;
        ghost var n;
        ghost var first := asked;
        err, n := RefreshWithRetries();
        RefusalsCounted(world, first, Attempts(before, threshold), n, err);
        if err {
          AttemptsReachThreshold(before, threshold);
          return false, GaveUp(token, before, n);
        }
        delay := startDelay;
        ghost var rest;
        ghost var fetched := accessToken;
        ok, rest := ProduceMessage(bound - 1);
        call := Again(token, before, n, fetched, rest);
      } else {
        call := Final(token, response);
        ok := response == Status(CREATED);
      }
    }
  }

  const SECOND: int := 1_000_000_000

  // ----- the refresh loop -----

  /** The loop stops at the first token, or when all the requests have been refused. */
  lemma {:induction false} RefusalsCounted(w: World, asked: nat, limit: nat, n: nat, err: bool)
    requires 1 <= n <= limit && (err ==> n == limit) && (err <==> w.getTokens(asked + n - 1).None?)
    requires forall i :: asked <= i < asked + n - 1 ==> w.getTokens(i).None?
    ensures Refusals(w, asked, limit) == if err then limit else n - 1
    decreases n
  {
    if n > 1 {
      RefusalsCounted(w, asked + 1, limit - 1, n - 1, err);
    }
  }

  lemma AskOnce(delay: int, answer: Option<string>)
    ensures Asking(delay, 1, answer) == [Ask(answer)] && Doubled(delay, 0) == delay
  {
  }

  lemma {:induction false} AskOnceMore(delay: int, n: nat, answer: Option<string>)
    requires n >= 1
    ensures Asking(delay, n + 1, answer) == Asking(delay, n, None) + [Sleep(Doubled(delay, n - 1))] + [Ask(answer)]
    decreases n
  {
    if n > 1 {
      AskOnceMore(2 * delay, n - 1, answer);
    } else {
      assert Asking(2 * delay, 1, answer) == [Ask(answer)];
    }
  }

  lemma {:induction false} DoubledOnce(delay: int, n: nat)
    ensures Doubled(delay, n + 1) == 2 * Doubled(delay, n)
    decreases n
  {
    if n > 0 {
      DoubledOnce(2 * delay, n - 1);
    }
  }

  /** The last request allowed is the first at which the delay has reached the threshold. */
  lemma {:induction false} AttemptsReachThreshold(delay: int, threshold: int)
    requires delay > 0
    ensures Doubled(delay, Attempts(delay, threshold) - 1) >= threshold
    ensures forall k :: 0 <= k < Attempts(delay, threshold) - 1 ==> Doubled(delay, k) < threshold
    decreases if delay < threshold then threshold - delay else 0
  {
    if delay < threshold {
      AttemptsReachThreshold(2 * delay, threshold);
      forall k | 0 <= k < Attempts(delay, threshold) - 1
        ensures Doubled(delay, k) < threshold
      {
        assert k > 0 ==> Doubled(delay, k) == Doubled(2 * delay, k - 1);
      }
    }
  }

  function Slept(steps: seq<Step>): int {
    if steps == [] then 0 else (if steps[0].Sleep? then steps[0].duration else 0) + Slept(steps[1..])
  }

  function Asks(steps: seq<Step>): nat {
    if steps == [] then 0 else (if steps[0].Ask? then 1 else 0) + Asks(steps[1..])
  }

  /** The time slept while asking is the growth of the delay, which stays below twice
      the threshold when it starts below it; every request counts once. */
  lemma {:induction false} AskingCosts(delay: int, n: nat, answer: Option<string>, threshold: int)
    requires delay > 0 && 1 <= n <= Attempts(delay, threshold)
    ensures Slept(Asking(delay, n, answer)) == Doubled(delay, n - 1) - delay
    ensures Asks(Asking(delay, n, answer)) == n
    ensures delay < threshold ==> Doubled(delay, n - 1) < 2 * threshold
    decreases n
  {
    if n > 1 {
      AskingCosts(2 * delay, n - 1, answer, threshold);
      var rest := Asking(2 * delay, n - 1, answer);
      var steps := Asking(delay, n, answer);
      assert steps[1..] == [Sleep(delay)] + rest && steps[1..][1..] == rest;
    } else {
      assert Asking(delay, n, answer)[1..] == [];
    }
  }

  /** With the constructor's delays, a rejected post costs at most six requests for a
      token and 31 seconds of sleep, and exactly these if all requests are refused; after
      an earlier failure it costs one request and no sleep. */
  lemma RejectedPostCosts(delay: int, n: nat, answer: Option<string>)
    requires delay == 1_000_000_000 || delay >= 30_000_000_000
    requires 1 <= n <= Attempts(delay, 30_000_000_000)
    ensures var asks, slept := Asks(Asking(delay, n, answer)), Slept(Asking(delay, n, answer));
            if delay > 1_000_000_000 then asks == 1 && slept == 0
            else
              && asks <= 6 && slept <= 31_000_000_000
              && (n == Attempts(delay, 30_000_000_000) ==> asks == 6 && slept == 31_000_000_000)
  {
    AskingCosts(delay, n, answer, 30 * SECOND);
    if delay == SECOND {
      assert Attempts(16 * SECOND, 30 * SECOND) == 1 + Attempts(32 * SECOND, 30 * SECOND) == 2;
      assert Attempts(4 * SECOND, 30 * SECOND) == 1 + Attempts(8 * SECOND, 30 * SECOND) == 4;
      assert Attempts(SECOND, 30 * SECOND) == 1 + Attempts(2 * SECOND, 30 * SECOND) == 6;
      DoubledIsMonotone(SECOND, n - 1, 5);
      assert Doubled(SECOND, 5) == Doubled(4 * SECOND, 3) == Doubled(16 * SECOND, 1) == 32 * SECOND;
    }
  }

  lemma {:induction false} DoubledIsMonotone(delay: int, m: nat, n: nat)
    requires delay > 0 && m <= n
    ensures 0 < Doubled(delay, m) <= Doubled(delay, n)
    decreases n
  {
    if m > 0 {
      DoubledIsMonotone(2 * delay, m - 1, n - 1);
    } else if n > 0 {
      DoubledIsMonotone(2 * delay, 0, n - 1);
    }
  }

  /** A failed refresh leaves the delay at the threshold, so until a token has been
      fetched every further rejection gets a single request and no waiting. */
  lemma AfterGivingUp(call: Call, token: string, delay: int, startDelay: int, threshold: int)
    requires delay > 0 && startDelay > 0 && Follows(call, token, delay, startDelay, threshold) && call.GaveUp?
    ensures Attempts(Doubled(delay, call.asked - 1), threshold) == 1
  {
    AttemptsReachThreshold(delay, threshold);
  }

  // ----- the steps of asking -----

  /** n requests, of which the last one gets the answer, with n - 1 sleeps between them, of
      which each takes twice as long as the one before. */
  lemma {:induction false} AskingIs(delay: int, n: nat, answer: Option<string>)
    requires n >= 1
    ensures var steps := Asking(delay, n, answer);
            && |steps| == 2 * n - 1
            && (forall i :: 0 <= i < n ==> steps[2 * i] == Ask(if i == n - 1 then answer else None))
            && (forall i :: 0 <= i < n - 1 ==> steps[2 * i + 1] == Sleep(Doubled(delay, i)))
    decreases n
  {
    if n > 1 {
      AskingIs(2 * delay, n - 1, answer);
      var steps, rest := Asking(delay, n, answer), Asking(2 * delay, n - 1, answer);
      assert forall k :: 2 <= k < |steps| ==> steps[k] == rest[k - 2];
      forall i | 0 < i < n
        ensures steps[2 * i] == Ask(if i == n - 1 then answer else None)
        ensures i < n - 1 ==> steps[2 * i + 1] == Sleep(Doubled(delay, i))
      {
        assert steps[2 * i] == rest[2 * (i - 1)];
        assert i < n - 1 ==> steps[2 * i + 1] == rest[2 * (i - 1) + 1];
        assert Doubled(delay, i) == Doubled(2 * delay, i - 1);
      }
    }
  }

  // ----- the whole call -----

  /** How a call ends with giving up. */
  predicate EndsGivingUp(call: Call) {
    call.GaveUp? || (call.Again? && EndsGivingUp(call.rest))
  }

  /** A call leaves the delay as it was if its first post decides, at its start value if a
      later one does, and at the threshold or above if it gives up. */
  lemma {:induction false} DelayMeans(call: Call, token: string, delay: int, startDelay: int, threshold: int)
    requires delay > 0 && startDelay > 0 && Follows(call, token, delay, startDelay, threshold)
    ensures var left := DelayAfter(call, if call.Again? then startDelay else delay);
            if EndsGivingUp(call) then left >= threshold && left >= if call.Again? then startDelay else delay
            else left == if call.Again? then startDelay else delay
    decreases call
  {
    match call
    case Final(_, _) =>
    case GaveUp(_, d, n) =>
      AttemptsReachThreshold(delay, threshold);
      DoubledIsMonotone(delay, 0, n - 1);
    case Again(_, _, _, fetched, rest) =>
      DelayMeans(rest, fetched, startDelay, startDelay, threshold);
      assert rest.Final? ==> DelayAfter(rest, startDelay) == startDelay;
  }

  lemma {:induction false} AskingHasNoPosts(delay: int, n: nat, answer: Option<string>)
    ensures forall s :: s in Asking(delay, n, answer) ==> !s.Post?
    ensures answer.Some? ==> Last(Asking(delay, n, answer)) == Ask(answer)
    ensures forall s :: s in Asking(delay, n, None) ==> s == Ask(None) || s.Sleep?
    decreases n
  {
    if n > 1 {
      AskingHasNoPosts(2 * delay, n - 1, answer);
    }
  }

  /** A call that succeeds ends with a 201, every earlier post got a 401, and every later
      post comes right after a request for a token and carries the token it returned. */
  lemma {:induction false} SuccessMeans(call: Call, token: string, delay: int, startDelay: int, threshold: int)
    requires delay > 0 && startDelay > 0 && Follows(call, token, delay, startDelay, threshold)
    ensures var steps := Steps(call);
            && steps != [] && steps[0].Post? && steps[0].token == token
            && (Succeeds(call) <==> Last(steps).Post? && Last(steps).response == Status(201))
            && (forall i :: 0 <= i < |steps| - 1 && steps[i].Post? ==> steps[i].response == Status(401))
            && (Last(steps).Post? ==> Last(steps).response != Status(401))
            && (forall i :: 0 < i < |steps| && steps[i].Post? ==> steps[i - 1] == Ask(Some(steps[i].token)))
    decreases call
  {
    match call
    case Final(_, _) =>
    case GaveUp(_, d, n) =>
      AskingHasNoPosts(d, n, None);
      var asking := Asking(d, n, None);
      var steps := Steps(call);
      assert forall i :: 0 < i < |steps| ==> steps[i] == asking[i - 1];
      assert Last(steps) == Last(asking) && Last(asking) in asking;
    case Again(_, d, n, fetched, rest) =>
      SuccessMeans(rest, fetched, startDelay, startDelay, threshold);
      AskingHasNoPosts(d, n, Some(fetched));
      AgainMeans(token, d, n, fetched, Steps(rest));
  }

  lemma AgainMeans(token: string, d: int, n: nat, fetched: string, rest: seq<Step>)
    requires rest != [] && rest[0].Post? && rest[0].token == fetched
    requires forall s :: s in Asking(d, n, Some(fetched)) ==> !s.Post?
    requires Last(Asking(d, n, Some(fetched))) == Ask(Some(fetched))
    requires forall i :: 0 <= i < |rest| - 1 && rest[i].Post? ==> rest[i].response == Status(UNAUTHORIZED)
    requires forall i :: 0 < i < |rest| && rest[i].Post? ==> rest[i - 1] == Ask(Some(rest[i].token))
    ensures var steps := [Post(token, Status(UNAUTHORIZED))] + Asking(d, n, Some(fetched)) + rest;
            && Last(steps) == Last(rest)
            && (forall i :: 0 <= i < |steps| - 1 && steps[i].Post? ==> steps[i].response == Status(UNAUTHORIZED))
            && (forall i :: 0 < i < |steps| && steps[i].Post? ==> steps[i - 1] == Ask(Some(steps[i].token)))
  {
    var asking := Asking(d, n, Some(fetched));
    var steps := [Post(token, Status(UNAUTHORIZED))] + asking + rest;
    var k := 1 + |asking|;
    forall i | 0 < i < k
      ensures !steps[i].Post?
    {
      assert steps[i] == asking[i - 1] && asking[i - 1] in asking;
    }
    forall i | k <= i < |steps| && steps[i].Post?
      ensures steps[i - 1] == Ask(Some(steps[i].token))
    {
      assert steps[i] == rest[i - k];
      if i == k {
        assert steps[i - 1] == Last(asking);
      } else {
        assert steps[i - 1] == rest[i - k - 1];
      }
    }
  }

  // ----- when a call ends -----

  /** A call of ProduceMessage comes to an end in this world. */
  ghost predicate HasCall(w: World, posts: nat, asked: nat, delay: int, startDelay: int, threshold: int)
    requires delay > 0 && startDelay > 0
  {
    exists call :: Plays(call, w, posts, asked, delay, startDelay, threshold)
  }

  ghost predicate EndsAtAll(w: World, posts: nat, asked: nat, delay: int, startDelay: int, threshold: int)
    requires delay > 0 && startDelay > 0
  {
    exists bound: nat :: Ends(w, posts, asked, delay, startDelay, threshold, bound)
  }

  /** There is a call that this world makes of it if and only if the world makes it end. */
  lemma CallsEndIff(w: World, posts: nat, asked: nat, delay: int, startDelay: int, threshold: int)
    requires delay > 0 && startDelay > 0
    ensures HasCall(w, posts, asked, delay, startDelay, threshold)
       <==> EndsAtAll(w, posts, asked, delay, startDelay, threshold)
  {
    if HasCall(w, posts, asked, delay, startDelay, threshold) {
      var call :| Plays(call, w, posts, asked, delay, startDelay, threshold);
      var bound := PlayedCallEnds(call, w, posts, asked, delay, startDelay, threshold);
    }
    if EndsAtAll(w, posts, asked, delay, startDelay, threshold) {
      var bound: nat :| Ends(w, posts, asked, delay, startDelay, threshold, bound);
      var call := EndingCall(w, posts, asked, delay, startDelay, threshold, bound);
    }
  }

  lemma {:induction false} PlayedCallEnds(call: Call, w: World, posts: nat, asked: nat, delay: int, startDelay: int,
                                          threshold: int) returns (bound: nat)
    requires delay > 0 && startDelay > 0 && Plays(call, w, posts, asked, delay, startDelay, threshold)
    ensures Ends(w, posts, asked, delay, startDelay, threshold, bound)
    decreases call
  {
    bound := 0;
    if call.Again? {
      bound := PlayedCallEnds(call.rest, w, posts + 1, asked + call.asked, startDelay, startDelay, threshold);
    }
    bound := bound + 1;
  }

  lemma {:induction false} EndingCall(w: World, posts: nat, asked: nat, delay: int, startDelay: int, threshold: int,
                                      bound: nat) returns (call: Call)
    requires delay > 0 && startDelay > 0 && Ends(w, posts, asked, delay, startDelay, threshold, bound)
    ensures Plays(call, w, posts, asked, delay, startDelay, threshold)
    decreases bound
  {
    var limit := Attempts(delay, threshold);
    var k := Refusals(w, asked, limit);
    if w.post(posts) != Status(UNAUTHORIZED) {
      call := Final("", w.post(posts));
    } else if k == limit {
      call := GaveUp("", delay, k);
    } else {
      TokenAfterRefusals(w, asked, limit);
      var rest := EndingCall(w, posts + 1, asked + k + 1, startDelay, startDelay, threshold, bound - 1);
      call := Again("", delay, k + 1, w.getTokens(asked + k).value, rest);
    }
  }

  lemma {:induction false} TokenAfterRefusals(w: World, asked: nat, limit: nat)
    requires Refusals(w, asked, limit) < limit
    ensures w.getTokens(asked + Refusals(w, asked, limit)).Some?
    decreases limit
  {
    if w.getTokens(asked).None? {
      TokenAfterRefusals(w, asked + 1, limit - 1);
    }
  }
}
