/**
 The per-key rate limiter (core/utils/rate_limiter.py): dispatch over backends and algorithms,
 and limiters made on first use.  Every pass of a blocking call is one operation here.
 */
module RateLimiters {
  import opened Options
  import TokenBuckets
  import SlidingWindows
  import RedisTokenBuckets

  datatype Algorithm = TokenBucket | SlidingWindow

  /** `redis` stands for a Redis backend together with a client for it. */
  datatype Config = Config(rate: real, burst: nat, algorithm: Algorithm, redis: bool, enabled: bool) {
    predicate Valid() { rate >= 0.0 }
    function Limits(): TokenBuckets.Limits { TokenBuckets.Limits(rate, burst) }
    function Shape(): SlidingWindows.Shape { SlidingWindows.Shape(rate, 1.0) }
    predicate OnRedis() { redis && algorithm == TokenBucket }
  }

  datatype Limiter = Bucket(bucket: TokenBuckets.BucketState) | Window(requests: seq<real>)

  datatype Store = Store(locals: map<string, Limiter>, hashes: map<string, RedisTokenBuckets.Hash>) {
    function HashOf(key: string): RedisTokenBuckets.Hash {
      if key in hashes then hashes[key] else RedisTokenBuckets.Missing
    }
  }

  datatype Operation = Acquire(time: real, key: string, n: int) | Available(time: real, key: string)

  datatype Answer = Allowed(ok: bool) | Room(amount: real) | Unlimited

  function NewLimiter(cfg: Config, now: real): Limiter {
    match cfg.algorithm
    case TokenBucket => Bucket(TokenBuckets.Full(cfg.Limits(), now))
    case SlidingWindow => Window([])
  }

  function LocalLimiter(cfg: Config, st: Store, key: string, now: real): Limiter {
    if key in st.locals then st.locals[key] else NewLimiter(cfg, now)
  }

  function Admit(cfg: Config, l: Limiter, now: real, n: int): (Limiter, bool) {
    match l
    case Bucket(b) => var (b', ok) := TokenBuckets.Take(cfg.Limits(), b, now, n); (Bucket(b'), ok)
    case Window(r) => var (r', ok) := SlidingWindows.Admit(cfg.Shape(), r, now); (Window(r'), ok)
  }

  function Look(cfg: Config, l: Limiter, now: real): (Limiter, real) {
    match l
    case Bucket(b) => var b' := TokenBuckets.Refill(cfg.Limits(), b, now); (Bucket(b'), b'.tokens)
    case Window(r) =>
      var r' := SlidingWindows.Prune(r, now - cfg.Shape().window);
      (Window(r'), SlidingWindows.Truncate(cfg.rate - |r'| as real) as real)
  }

  function Handle(cfg: Config, prefix: string, st: Store, op: Operation): (Store, Answer) {
    match op
    case Acquire(now, key, n) =>
      if !cfg.enabled then (st, Allowed(true))
      else if cfg.OnRedis() then
        var hashKey := RedisTokenBuckets.KeyFor(prefix, key);
        var (h, ok) := RedisTokenBuckets.Script(cfg.Limits(), st.HashOf(hashKey), now, n);
        (st.(hashes := st.hashes[hashKey := h]), Allowed(ok))
      else
        var (l, ok) := Admit(cfg, LocalLimiter(cfg, st, key, now), now, n);
        (st.(locals := st.locals[key := l]), Allowed(ok))
    case Available(now, key) =>
      if !cfg.enabled then (st, Unlimited)
      else
        var (l, amount) := Look(cfg, LocalLimiter(cfg, st, key, now), now);
        (st.(locals := st.locals[key := l]), Room(amount))
  }

  // ----- Isolation of keys -----

  /** The answers that the operations on `key` get, in a run over any keys. */
  function AnswersFor(cfg: Config, prefix: string, st: Store, ops: seq<Operation>, key: string): seq<Answer>
    decreases |ops|
  {
    if ops == [] then []
    else
      var (st', a) := Handle(cfg, prefix, st, ops[0]);
      (if ops[0].key == key then [a] else []) + AnswersFor(cfg, prefix, st', ops[1..], key)
  }

  function OperationsOn(ops: seq<Operation>, key: string): seq<Operation> {
    if ops == [] then []
    else (if ops[0].key == key then [ops[0]] else []) + OperationsOn(ops[1..], key)
  }

  /** The two stores hold the same for `key`. */
  predicate AgreeOn(prefix: string, st: Store, st': Store, key: string) {
    && (key in st.locals <==> key in st'.locals)
    && (key in st.locals ==> st.locals[key] == st'.locals[key])
    && var hashKey := RedisTokenBuckets.KeyFor(prefix, key);
       st.HashOf(hashKey) == st'.HashOf(hashKey)
  }

  lemma KeysDiffer(prefix: string, a: string, b: string)
    requires a != b
    ensures RedisTokenBuckets.KeyFor(prefix, a) != RedisTokenBuckets.KeyFor(prefix, b)
  {
    var head := prefix + ":ratelimit:";
    assert RedisTokenBuckets.KeyFor(prefix, a)[|head|..] == a;
    assert RedisTokenBuckets.KeyFor(prefix, b)[|head|..] == b;
  }

  lemma OtherKeyUntouched(cfg: Config, prefix: string, st: Store, op: Operation, key: string)
    requires op.key != key
    ensures AgreeOn(prefix, st, Handle(cfg, prefix, st, op).0, key)
  {
    KeysDiffer(prefix, op.key, key);
  }

  lemma SameKeySameAnswer(cfg: Config, prefix: string, st: Store, st': Store, op: Operation)
    requires AgreeOn(prefix, st, st', op.key)
    ensures var (r, r') := (Handle(cfg, prefix, st, op), Handle(cfg, prefix, st', op));
            r.1 == r'.1 && AgreeOn(prefix, r.0, r'.0, op.key)
  {
  }

  /**
   What a key is answered in a run interleaved with any other keys is what a limiter that is
   asked about this key alone answers.
   */
  lemma {:induction false} KeysAreIsolated(
    cfg: Config, prefix: string, st: Store, alone: Store, ops: seq<Operation>, key: string)
    requires AgreeOn(prefix, st, alone, key)
    ensures AnswersFor(cfg, prefix, st, ops, key)
         == AnswersFor(cfg, prefix, alone, OperationsOn(ops, key), key)
    decreases |ops|
  {
    if ops == [] {
    } else {
      var op, rest := ops[0], ops[1..];
      var st' := Handle(cfg, prefix, st, op).0;
      if op.key == key {
        SameKeySameAnswer(cfg, prefix, st, alone, op);
        KeysAreIsolated(cfg, prefix, st', Handle(cfg, prefix, alone, op).0, rest, key);
        assert OperationsOn(ops, key)[0] == op;
        assert OperationsOn(ops, key)[1..] == OperationsOn(rest, key);
      } else {
        OtherKeyUntouched(cfg, prefix, st, op, key);
        KeysAreIsolated(cfg, prefix, st', alone, rest, key);
        assert OperationsOn(ops, key) == OperationsOn(rest, key);
      }
    }
  }

  // ----- What a key is answered -----

  function StoreAfter(cfg: Config, prefix: string, st: Store, ops: seq<Operation>, k: nat): Store
    requires k <= |ops|
  {
    if k == 0 then st else Handle(cfg, prefix, StoreAfter(cfg, prefix, st, ops, k - 1), ops[k - 1]).0
  }

  function AnswerAt(cfg: Config, prefix: string, st: Store, ops: seq<Operation>, k: nat): Answer
    requires k < |ops|
  {
    Handle(cfg, prefix, StoreAfter(cfg, prefix, st, ops, k), ops[k]).1
  }

  lemma {:induction false} StoreAfterFirst(cfg: Config, prefix: string, st: Store, ops: seq<Operation>, k: nat)
    requires 0 < k <= |ops|
    ensures StoreAfter(cfg, prefix, st, ops, k)
         == StoreAfter(cfg, prefix, Handle(cfg, prefix, st, ops[0]).0, ops[1..], k - 1)
  {
    if k > 1 {
      StoreAfterFirst(cfg, prefix, st, ops, k - 1);
      assert ops[1..][k - 2] == ops[k - 1];
    }
  }

  ghost predicate AllOn(ops: seq<Operation>, key: string) {
    forall i :: 0 <= i < |ops| ==> ops[i].key == key
  }

  lemma {:induction false} AnswersInTurn(
    cfg: Config, prefix: string, st: Store, ops: seq<Operation>, key: string, k: nat)
    requires AllOn(ops, key) && k < |ops|
    ensures |AnswersFor(cfg, prefix, st, ops, key)| == |ops|
    ensures AnswersFor(cfg, prefix, st, ops, key)[k] == AnswerAt(cfg, prefix, st, ops, k)
    decreases |ops|
  {
    var (st', a) := Handle(cfg, prefix, st, ops[0]);
    assert ops[0].key == key;
    assert AnswersFor(cfg, prefix, st, ops, key) == [a] + AnswersFor(cfg, prefix, st', ops[1..], key);
    if k > 0 {
      AnswersInTurn(cfg, prefix, st', ops[1..], key, k - 1);
      StoreAfterFirst(cfg, prefix, st, ops, k);
    } else if |ops| > 1 {
      AnswersInTurn(cfg, prefix, st', ops[1..], key, 0);
    }
  }

  /** A limiter that is not enabled lets everything pass, keeps nothing and reports no limit. */
  lemma {:induction false} DisabledLetsPass(cfg: Config, prefix: string, st: Store, ops: seq<Operation>, k: nat)
    requires !cfg.enabled && k <= |ops|
    ensures StoreAfter(cfg, prefix, st, ops, k) == st
    ensures k < |ops| ==>
              AnswerAt(cfg, prefix, st, ops, k) == if ops[k].Acquire? then Allowed(true) else Unlimited
  {
    if k == 0 {
    } else {
      DisabledLetsPass(cfg, prefix, st, ops, k - 1);
    }
  }

  function BucketEvent(op: Operation): TokenBuckets.Event {
    match op
    case Acquire(now, _, n) => TokenBuckets.Acquire(now, n)
    case Available(now, _) => TokenBuckets.Available(now)
  }

  function WindowEvent(op: Operation): SlidingWindows.Event {
    match op
    case Acquire(now, _, _) => SlidingWindows.Acquire(now)
    case Available(now, _) => SlidingWindows.Available(now)
  }

  function BucketEvents(ops: seq<Operation>): (es: seq<TokenBuckets.Event>)
    ensures |es| == |ops|
  {
    seq(|ops|, i requires 0 <= i < |ops| => BucketEvent(ops[i]))
  }

  function WindowEvents(ops: seq<Operation>): (es: seq<SlidingWindows.Event>)
    ensures |es| == |ops|
  {
    seq(|ops|, i requires 0 <= i < |ops| => WindowEvent(ops[i]))
  }

  /** What a token bucket of its own, made at its first use, answers to operation `k`. */
  function BucketAnswer(cfg: Config, ops: seq<Operation>, k: nat): Answer
    requires k < |ops|
  {
    var es, lim := BucketEvents(ops), TokenBuckets.Limits(cfg.rate, cfg.burst);
    if ops[k].Acquire? then Allowed(TokenBuckets.Accepted(lim, ops[0].time, es, k))
    else Room(TokenBuckets.Level(lim, ops[0].time, es, k + 1))
  }

  /** What a sliding window of its own answers to operation `k`. */
  function WindowAnswer(cfg: Config, ops: seq<Operation>, k: nat): Answer
    requires k < |ops|
  {
    var es, sh := WindowEvents(ops), SlidingWindows.Shape(cfg.rate, 1.0);
    if ops[k].Acquire? then Allowed(SlidingWindows.Accepted(sh, es, k))
    else Room(SlidingWindows.Truncate(cfg.rate - |SlidingWindows.ListAt(sh, es, k + 1)| as real) as real)
  }

  lemma BucketStep(cfg: Config, prefix: string, st: Store, op: Operation, b: TokenBuckets.BucketState)
    requires cfg.enabled && !cfg.OnRedis() && LocalLimiter(cfg, st, op.key, op.time) == Bucket(b)
    ensures var (st', a) := Handle(cfg, prefix, st, op);
            var (b', ok) := TokenBuckets.Step(cfg.Limits(), b, BucketEvent(op));
            && st'.locals == st.locals[op.key := Bucket(b')]
            && a == if op.Acquire? then Allowed(ok) else Room(b'.tokens)
  {
  }

  lemma WindowStep(cfg: Config, prefix: string, st: Store, op: Operation, list: seq<real>)
    requires cfg.enabled && !cfg.OnRedis() && LocalLimiter(cfg, st, op.key, op.time) == Window(list)
    ensures var (st', a) := Handle(cfg, prefix, st, op);
            var (list', ok) := SlidingWindows.Step(cfg.Shape(), list, WindowEvent(op));
            && st'.locals == st.locals[op.key := Window(list')]
            && a == if op.Acquire? then Allowed(ok)
                    else Room(SlidingWindows.Truncate(cfg.rate - |list'| as real) as real)
  {
  }

  lemma {:induction false} BucketOfItsOwn(
    cfg: Config, prefix: string, st: Store, ops: seq<Operation>, key: string, k: nat)
    requires cfg.enabled && !cfg.OnRedis() && cfg.algorithm == TokenBucket
    requires key !in st.locals && AllOn(ops, key) && ops != [] && k <= |ops|
    ensures var now := if k == 0 then ops[0].time else ops[k - 1].time;
            LocalLimiter(cfg, StoreAfter(cfg, prefix, st, ops, k), key, now)
            == Bucket(TokenBuckets.At(cfg.Limits(), ops[0].time, BucketEvents(ops), k))
    ensures k > 0 ==> key in StoreAfter(cfg, prefix, st, ops, k).locals
  {
    if k == 0 {
    } else {
      BucketOfItsOwn(cfg, prefix, st, ops, key, k - 1);
      var b0 := TokenBuckets.At(cfg.Limits(), ops[0].time, BucketEvents(ops), k - 1);
      BucketStep(cfg, prefix, StoreAfter(cfg, prefix, st, ops, k - 1), ops[k - 1], b0);
    }
  }

  lemma BucketAnswers(cfg: Config, prefix: string, st: Store, ops: seq<Operation>, key: string, k: nat)
    requires cfg.enabled && !cfg.OnRedis() && cfg.algorithm == TokenBucket
    requires key !in st.locals && AllOn(ops, key) && k < |ops|
    ensures AnswerAt(cfg, prefix, st, ops, k) == BucketAnswer(cfg, ops, k)
  {
    BucketOfItsOwn(cfg, prefix, st, ops, key, k);
    BucketStep(cfg, prefix, StoreAfter(cfg, prefix, st, ops, k), ops[k],
               TokenBuckets.At(cfg.Limits(), ops[0].time, BucketEvents(ops), k));
  }

  lemma {:induction false} WindowOfItsOwn(
    cfg: Config, prefix: string, st: Store, ops: seq<Operation>, key: string, k: nat)
    requires cfg.enabled && cfg.algorithm == SlidingWindow
    requires key !in st.locals && AllOn(ops, key) && ops != [] && k <= |ops|
    ensures var now := if k == 0 then ops[0].time else ops[k - 1].time;
            LocalLimiter(cfg, StoreAfter(cfg, prefix, st, ops, k), key, now)
            == Window(SlidingWindows.ListAt(cfg.Shape(), WindowEvents(ops), k))
    ensures k > 0 ==> key in StoreAfter(cfg, prefix, st, ops, k).locals
  {
    if k == 0 {
    } else {
      WindowOfItsOwn(cfg, prefix, st, ops, key, k - 1);
      var list0 := SlidingWindows.ListAt(cfg.Shape(), WindowEvents(ops), k - 1);
      WindowStep(cfg, prefix, StoreAfter(cfg, prefix, st, ops, k - 1), ops[k - 1], list0);
    }
  }

  lemma WindowAnswers(cfg: Config, prefix: string, st: Store, ops: seq<Operation>, key: string, k: nat)
    requires cfg.enabled && cfg.algorithm == SlidingWindow
    requires key !in st.locals && AllOn(ops, key) && k < |ops|
    ensures AnswerAt(cfg, prefix, st, ops, k) == WindowAnswer(cfg, ops, k)
  {
    WindowOfItsOwn(cfg, prefix, st, ops, key, k);
    WindowStep(cfg, prefix, StoreAfter(cfg, prefix, st, ops, k), ops[k],
               SlidingWindows.ListAt(cfg.Shape(), WindowEvents(ops), k));
  }

  lemma {:induction false} OperationsAreOnKey(ops: seq<Operation>, key: string)
    ensures AllOn(OperationsOn(ops, key), key)
  {
    if ops == [] {
    } else {
      OperationsAreOnKey(ops[1..], key);
    }
  }

  /**
   Every key has a limiter of its own: in a run over any keys its answers are those of a single
   token bucket or sliding window made at its first use, so what is proved of one bucket or window
   under any requests holds for every key.  With a Redis client the sliding window stays local.
   */
  lemma EachKeyHasItsOwn(cfg: Config, prefix: string, ops: seq<Operation>, key: string, k: nat)
    requires cfg.enabled && !cfg.OnRedis() && k < |OperationsOn(ops, key)|
    ensures var answers, mine := AnswersFor(cfg, prefix, Store(map[], map[]), ops, key), OperationsOn(ops, key);
            && |answers| == |mine|
            && answers[k] == if cfg.algorithm == TokenBucket then BucketAnswer(cfg, mine, k)
                             else WindowAnswer(cfg, mine, k)
  {
    var st, mine := Store(map[], map[]), OperationsOn(ops, key);
    KeysAreIsolated(cfg, prefix, st, st, ops, key);
    OperationsAreOnKey(ops, key);
    AnswersInTurn(cfg, prefix, st, mine, key, k);
    if cfg.algorithm == TokenBucket {
      BucketAnswers(cfg, prefix, st, mine, key, k);
    } else {
      WindowAnswers(cfg, prefix, st, mine, key, k);
    }
  }

  ghost predicate Ordered(from: real, ops: seq<Operation>) {
    && (forall i :: 0 <= i < |ops| ==> from <= ops[i].time)
    && (forall i, j :: 0 <= i < j < |ops| ==> ops[i].time <= ops[j].time)
  }

  // ----- A key on the Redis backend -----

  /** The requests for tokens of the key among the first `k` operations. */
  function RequestsFor(ops: seq<Operation>, key: string, k: nat): seq<TokenBuckets.Event>
    requires k <= |ops|
  {
    if k == 0 then []
    else RequestsFor(ops, key, k - 1)
         + if ops[k - 1].Acquire? && ops[k - 1].key == key then [BucketEvent(ops[k - 1])] else []
  }

  lemma {:induction false} RequestsAreOrdered(from: real, ops: seq<Operation>, key: string, k: nat)
    requires Ordered(from, ops) && k <= |ops|
    ensures RedisTokenBuckets.Requests(RequestsFor(ops, key, k))
    ensures TokenBuckets.Ordered(from, RequestsFor(ops, key, k))
    ensures forall i, j :: 0 <= i < |RequestsFor(ops, key, k)| && k <= j < |ops| ==>
              RequestsFor(ops, key, k)[i].time <= ops[j].time
  {
    if k == 0 {
    } else {
      RequestsAreOrdered(from, ops, key, k - 1);
    }
  }

  lemma {:induction false} HashPrefix(
    lim: TokenBuckets.Limits, es: seq<TokenBuckets.Event>, e: TokenBuckets.Event, k: nat)
    requires RedisTokenBuckets.Requests(es) && e.Acquire? && k <= |es|
    ensures RedisTokenBuckets.Requests(es + [e])
    ensures RedisTokenBuckets.HashAt(lim, es + [e], k) == RedisTokenBuckets.HashAt(lim, es, k)
  {
    if k == 0 {
    } else {
      HashPrefix(lim, es, e, k - 1);
    }
  }

  /** Only a request for the key touches its hash. */
  lemma HashAfter(cfg: Config, prefix: string, st: Store, op: Operation, key: string)
    requires cfg.enabled && cfg.OnRedis()
    ensures var hashKey := RedisTokenBuckets.KeyFor(prefix, key);
            Handle(cfg, prefix, st, op).0.HashOf(hashKey)
            == if op.Acquire? && op.key == key
               then RedisTokenBuckets.Script(cfg.Limits(), st.HashOf(hashKey), op.time, op.n).0
               else st.HashOf(hashKey)
  {
    if op.key != key { OtherKeyUntouched(cfg, prefix, st, op, key); }
  }

  lemma HashAtOneMore(lim: TokenBuckets.Limits, es: seq<TokenBuckets.Event>, e: TokenBuckets.Event)
    requires RedisTokenBuckets.Requests(es) && e.Acquire?
    ensures RedisTokenBuckets.Requests(es + [e])
    ensures RedisTokenBuckets.HashAt(lim, es + [e], |es| + 1)
         == RedisTokenBuckets.Script(lim, RedisTokenBuckets.HashAt(lim, es, |es|), e.time, e.n).0
  {
    HashPrefix(lim, es, e, |es|);
  }

  lemma {:induction false} HashOfItsOwn(
    cfg: Config, prefix: string, from: real, ops: seq<Operation>, key: string, k: nat)
    requires cfg.enabled && cfg.OnRedis() && Ordered(from, ops) && k <= |ops|
    ensures RedisTokenBuckets.Requests(RequestsFor(ops, key, k))
    ensures StoreAfter(cfg, prefix, Store(map[], map[]), ops, k).HashOf(RedisTokenBuckets.KeyFor(prefix, key))
         == RedisTokenBuckets.HashAt(cfg.Limits(), RequestsFor(ops, key, k), |RequestsFor(ops, key, k)|)
  {
    RequestsAreOrdered(from, ops, key, k);
    if k == 0 {
    } else {
      HashOfItsOwn(cfg, prefix, from, ops, key, k - 1);
      var op, es := ops[k - 1], RequestsFor(ops, key, k - 1);
      HashAfter(cfg, prefix, StoreAfter(cfg, prefix, Store(map[], map[]), ops, k - 1), op, key);
      if op.Acquire? && op.key == key {
        HashAtOneMore(cfg.Limits(), es, BucketEvent(op));
      } else {
        assert RequestsFor(ops, key, k) == es;
      }
    }
  }

  /**
   So does every key on Redis, provided that a bucket can fill up while its hash lives: its requests
   are answered as an in-memory bucket of its own would answer them, whatever other keys are used in
   between and however often `available` is called.
   */
  lemma EachRedisKeyHasItsOwn(cfg: Config, prefix: string, from: real, ops: seq<Operation>, key: string, k: nat)
    requires cfg.Valid() && cfg.enabled && cfg.OnRedis() && Ordered(from, ops)
    requires TokenBuckets.Flow(cfg.rate, 0.0, RedisTokenBuckets.TTL) >= cfg.burst as real
    requires k < |ops| && ops[k].Acquire? && ops[k].key == key
    ensures var before := RequestsFor(ops, key, k);
            AnswerAt(cfg, prefix, Store(map[], map[]), ops, k)
            == Allowed(TokenBuckets.Accepted(cfg.Limits(), from, before + [BucketEvent(ops[k])], |before|))
  {
    var before := RequestsFor(ops, key, k);
    var es := before + [BucketEvent(ops[k])];
    assert es == RequestsFor(ops, key, k + 1);
    RequestsAreOrdered(from, ops, key, k + 1);
    HashOfItsOwn(cfg, prefix, from, ops, key, k);
    HashPrefix(cfg.Limits(), before, BucketEvent(ops[k]), |before|);
    RedisTokenBuckets.RelatedAfter(cfg.Limits(), from, es, |before|);
    assert AnswerAt(cfg, prefix, Store(map[], map[]), ops, k)
        == Allowed(RedisTokenBuckets.ScriptAccepts(cfg.Limits(), es, |before|));
  }

  // ----- `available` on the Redis backend -----

  /** No local bucket has ever been drawn from. */
  ghost predicate LocalsFull(cfg: Config, st: Store, now: real) {
    forall key :: key in st.locals ==>
      && st.locals[key].Bucket?
      && st.locals[key].bucket == TokenBuckets.Full(cfg.Limits(), st.locals[key].bucket.lastRefill)
      && st.locals[key].bucket.lastRefill <= now
  }

  /**
   On the Redis backend `acquire` draws from Redis and `available` looks at a local bucket that
   nothing draws from: whatever was acquired before, it reports the whole burst.
   */
  lemma {:induction false} RedisAvailableAlwaysFull(
    cfg: Config, prefix: string, st: Store, from: real, ops: seq<Operation>, key: string)
    requires cfg.Valid() && cfg.enabled && cfg.OnRedis()
    requires Ordered(from, ops) && LocalsFull(cfg, st, from)
    ensures forall a :: a in AnswersFor(cfg, prefix, st, ops, key) ==>
              a.Allowed? || a == Room(cfg.burst as real)
    decreases |ops|
  {
    if ops == [] {
    } else {
      var op := ops[0];
      var (st', a) := Handle(cfg, prefix, st, op);
      RedisStepKeepsFull(cfg, prefix, st, from, op);
      assert Ordered(op.time, ops[1..]);
      RedisAvailableAlwaysFull(cfg, prefix, st', op.time, ops[1..], key);
    }
  }

  lemma RedisStepKeepsFull(cfg: Config, prefix: string, st: Store, from: real, op: Operation)
    requires cfg.Valid() && cfg.enabled && cfg.OnRedis()
    requires from <= op.time && LocalsFull(cfg, st, from)
    ensures var (st', a) := Handle(cfg, prefix, st, op);
            LocalsFull(cfg, st', op.time) && (a.Allowed? || a == Room(cfg.burst as real))
  {
    var l := LocalLimiter(cfg, st, op.key, op.time);
    assert l.Bucket? && l.bucket.lastRefill <= op.time;
    RedisTokenBuckets.FullStaysFull(cfg.Limits(), l.bucket.lastRefill, op.time);
  }

  /** So the report can be wrong: a whole burst is reported and any request for a token is refused. */
  lemma RedisAvailableMisleads(cfg: Config, prefix: string, now: real, key: string)
    requires cfg.Valid() && cfg.enabled && cfg.OnRedis() && cfg.burst > 0
    ensures AnswersFor(cfg, prefix, Store(map[], map[]),
                       [Acquire(now, key, cfg.burst), Available(now, key), Acquire(now, key, 1)], key)
         == [Allowed(true), Room(cfg.burst as real), Allowed(false)]
  {
    var a, b, c := Acquire(now, key, cfg.burst), Available(now, key), Acquire(now, key, 1);
    var st0 := Store(map[], map[]);
    RedisTokenBuckets.FullStaysFull(cfg.Limits(), now, now);
    var hashKey := RedisTokenBuckets.KeyFor(prefix, key);
    var drained := RedisTokenBuckets.Stored(TokenBuckets.BucketState(0.0, now), now + RedisTokenBuckets.TTL);
    var st1 := st0.(hashes := st0.hashes[hashKey := drained]);
    assert st0.HashOf(hashKey) == RedisTokenBuckets.Missing;
    assert Handle(cfg, prefix, st0, a) == (st1, Allowed(true));
    var st2 := Handle(cfg, prefix, st1, b).0;
    assert st2.HashOf(hashKey) == drained;
    assert TokenBuckets.Refill(cfg.Limits(), drained.bucket, now) == drained.bucket;
    assert Handle(cfg, prefix, st2, c).1 == Allowed(false);
    AnswersToThree(cfg, prefix, st0, a, b, c, key);
  }

  /** The level that decides a request for the key now; a sliding window has none. */
  function DecisionLevel(cfg: Config, prefix: string, st: Store, key: string, now: real): Option<real> {
    if cfg.OnRedis() then
      Some(RedisTokenBuckets.LevelFound(cfg.Limits(), st.HashOf(RedisTokenBuckets.KeyFor(prefix, key)), now))
    else
      match LocalLimiter(cfg, st, key, now)
      case Bucket(b) => Some(TokenBuckets.Refill(cfg.Limits(), b, now).tokens)
      case Window(_) => None
  }

  lemma DecidedOnLevel(cfg: Config, prefix: string, st: Store, key: string, now: real, n: int)
    requires cfg.enabled && DecisionLevel(cfg, prefix, st, key, now).Some?
    ensures Handle(cfg, prefix, st, Acquire(now, key, n)).1
         == Allowed(DecisionLevel(cfg, prefix, st, key, now).value >= n as real)
  {
  }

  /** After the run, `available` reports the level on which a request would be decided. */
  ghost predicate ReportsTruly(cfg: Config, prefix: string, ops: seq<Operation>, key: string, now: real) {
    var st := StoreAfter(cfg, prefix, Store(map[], map[]), ops, |ops|);
    match DecisionLevel(cfg, prefix, st, key, now)
    case Some(level) => Handle(cfg, prefix, st, Available(now, key)).1 == Room(level)
    case None => false
  }

  /** The first `k` operations happen in clock order, none after `now`. */
  ghost predicate Before(ops: seq<Operation>, k: nat, now: real)
    requires k <= |ops|
  {
    && (forall i :: 0 <= i < k ==> ops[i].time <= now)
    && (forall i, j :: 0 <= i < j < k ==> ops[i].time <= ops[j].time)
  }

  /** Local buckets are full, and no hash is overdrawn or ahead of the clock. */
  ghost predicate RedisSound(cfg: Config, st: Store, now: real) {
    && LocalsFull(cfg, st, now)
    && forall k :: k in st.hashes && st.hashes[k].Stored? ==>
         st.hashes[k].bucket.tokens >= 0.0 && st.hashes[k].bucket.lastRefill <= now
  }

  lemma ScriptStaysSound(lim: TokenBuckets.Limits, h: RedisTokenBuckets.Hash, now: real, n: int)
    requires lim.Valid() && (h.Stored? ==> h.bucket.tokens >= 0.0 && h.bucket.lastRefill <= now)
    ensures RedisTokenBuckets.LevelFound(lim, h, now) >= 0.0
    ensures RedisTokenBuckets.Script(lim, h, now, n).0.bucket.tokens >= 0.0
  {
    var b := RedisTokenBuckets.Read(lim, h, now);
    TokenBuckets.FlowGrows(lim.rate, b.lastRefill, b.lastRefill, now, now);
  }

  lemma RedisStepStaysSound(cfg: Config, prefix: string, st: Store, from: real, op: Operation)
    requires cfg.Valid() && cfg.enabled && cfg.OnRedis()
    requires from <= op.time && RedisSound(cfg, st, from)
    ensures RedisSound(cfg, Handle(cfg, prefix, st, op).0, op.time)
  {
    RedisStepKeepsFull(cfg, prefix, st, from, op);
    if op.Acquire? {
      var hashKey := RedisTokenBuckets.KeyFor(prefix, op.key);
      ScriptStaysSound(cfg.Limits(), st.HashOf(hashKey), op.time, op.n);
    }
  }

  lemma {:induction false} RedisRunStaysSound(cfg: Config, prefix: string, ops: seq<Operation>, k: nat, now: real)
    requires cfg.Valid() && cfg.enabled && cfg.OnRedis() && k <= |ops| && Before(ops, k, now)
    ensures RedisSound(cfg, StoreAfter(cfg, prefix, Store(map[], map[]), ops, k), now)
  {
    if k == 0 {
    } else {
      var op, st := ops[k - 1], StoreAfter(cfg, prefix, Store(map[], map[]), ops, k - 1);
      RedisRunStaysSound(cfg, prefix, ops, k - 1, op.time);
      RedisStepStaysSound(cfg, prefix, st, op.time, op);
    }
  }

  /** With nothing to burst, a Redis bucket is always at zero, as its local bucket is. */
  lemma EmptyBurstReportsTruly(cfg: Config, prefix: string, ops: seq<Operation>, key: string, now: real)
    requires cfg.Valid() && cfg.enabled && cfg.OnRedis() && cfg.burst == 0 && Before(ops, |ops|, now)
    ensures ReportsTruly(cfg, prefix, ops, key, now)
  {
    var st := StoreAfter(cfg, prefix, Store(map[], map[]), ops, |ops|);
    RedisRunStaysSound(cfg, prefix, ops, |ops|, now);
    RedisStepKeepsFull(cfg, prefix, st, now, Available(now, key));
    ScriptStaysSound(cfg.Limits(), st.HashOf(RedisTokenBuckets.KeyFor(prefix, key)), now, 0);
  }

  lemma {:induction false} LocalsAreBuckets(cfg: Config, prefix: string, ops: seq<Operation>, k: nat)
    requires cfg.algorithm == TokenBucket && k <= |ops|
    ensures forall key :: key in StoreAfter(cfg, prefix, Store(map[], map[]), ops, k).locals ==>
              StoreAfter(cfg, prefix, Store(map[], map[]), ops, k).locals[key].Bucket?
  {
    if k == 0 {
    } else {
      LocalsAreBuckets(cfg, prefix, ops, k - 1);
    }
  }

  /** Drain the bucket and look: the report is the whole burst, and nothing is left. */
  lemma DrainedReportsFalsely(cfg: Config, prefix: string, now: real, key: string)
    requires cfg.Valid() && cfg.enabled && cfg.OnRedis() && cfg.burst > 0
    ensures !ReportsTruly(cfg, prefix, [Acquire(now, key, cfg.burst)], key, now)
  {
    var ops, st0 := [Acquire(now, key, cfg.burst)], Store(map[], map[]);
    var hashKey := RedisTokenBuckets.KeyFor(prefix, key);
    RedisTokenBuckets.FullStaysFull(cfg.Limits(), now, now);
    assert st0.HashOf(hashKey) == RedisTokenBuckets.Missing;
    var st := StoreAfter(cfg, prefix, st0, ops, 1);
    assert StoreAfter(cfg, prefix, st0, ops, 0) == st0;
    assert st.HashOf(hashKey)
        == RedisTokenBuckets.Stored(TokenBuckets.BucketState(0.0, now), now + RedisTokenBuckets.TTL);
    assert TokenBuckets.Flow(cfg.rate, now, now) == 0.0;
    assert DecisionLevel(cfg, prefix, st, key, now) == Some(0.0);
  }

  /**
   What `available` reports is the level on which a request at that time would be decided, after every
   run and for every key, exactly when the bucket is not on Redis or has nothing to burst.
   */
  lemma AvailableReportsTrulyIff(cfg: Config, prefix: string)
    requires cfg.Valid() && cfg.enabled && cfg.algorithm == TokenBucket
    ensures (forall ops, key, now :: Before(ops, |ops|, now) ==> ReportsTruly(cfg, prefix, ops, key, now))
            <==> !cfg.OnRedis() || cfg.burst == 0
  {
    if !cfg.OnRedis() {
      forall ops, key, now | Before(ops, |ops|, now) ensures ReportsTruly(cfg, prefix, ops, key, now) {
        LocalsAreBuckets(cfg, prefix, ops, |ops|);
      }
    } else if cfg.burst == 0 {
      forall ops, key, now | Before(ops, |ops|, now) ensures ReportsTruly(cfg, prefix, ops, key, now) {
        EmptyBurstReportsTruly(cfg, prefix, ops, key, now);
      }
    } else {
      var ops, now := [Acquire(0.0, "", cfg.burst)], 0.0;
      DrainedReportsFalsely(cfg, prefix, now, "");
      assert Before(ops, |ops|, now);
    }
  }

  lemma AnswersToThree(
    cfg: Config, prefix: string, st0: Store, a: Operation, b: Operation, c: Operation, key: string)
    requires a.key == b.key == c.key == key
    ensures var (st1, r0) := Handle(cfg, prefix, st0, a);
            var (st2, r1) := Handle(cfg, prefix, st1, b);
            AnswersFor(cfg, prefix, st0, [a, b, c], key) == [r0, r1, Handle(cfg, prefix, st2, c).1]
  {
    var (st1, r0) := Handle(cfg, prefix, st0, a);
    var (st2, r1) := Handle(cfg, prefix, st1, b);
    var (st3, r2) := Handle(cfg, prefix, st2, c);
    assert [c][1..] == [] && [b, c][1..] == [c] && [a, b, c][1..] == [b, c];
    assert AnswersFor(cfg, prefix, st3, [], key) == [];
    assert AnswersFor(cfg, prefix, st2, [c], key) == [r2];
    assert AnswersFor(cfg, prefix, st1, [b, c], key) == [r1, r2];
  }

  // ----- The limiter object -----

  class RateLimiter {
    const cfg: Config
    const prefix: string
    const server: RedisTokenBuckets.RedisServer
    var locals: map<string, Limiter>

    function View(): Store
      reads this, server
    {
      Store(locals, server.hashes)
    }

    constructor (cfg: Config, prefix: string, server: RedisTokenBuckets.RedisServer)
      ensures this.cfg == cfg && this.prefix == prefix && this.server == server && locals == map[]
    {
      this.cfg, this.prefix, this.server := cfg, prefix, server;
      locals := map[];
    }

    method GetLocalLimiter(key: string, now: real) returns (l: Limiter)
      modifies this
      ensures l == LocalLimiter(cfg, old(View()), key, now)
      ensures locals == old(locals)[key := l]
    {
      if key !in locals {
        locals := locals[key := NewLimiter(cfg, now)];
      }
      l := locals[key];
      assert locals == old(locals)[key := l];
    }

    /** One non-blocking acquire, or one pass of a blocking one. */
    method TryAcquire(key: string, now: real, n: int) returns (ok: bool)
      modifies this, server
      ensures (View(), Allowed(ok)) == Handle(cfg, prefix, old(View()), Acquire(now, key, n))
    {
      if !cfg.enabled {
        return true;
      }
      if cfg.redis && cfg.algorithm == TokenBucket {
        ok := server.Eval(cfg.Limits(), RedisTokenBuckets.KeyFor(prefix, key), now, n);
        return;
      }
      var l := GetLocalLimiter(key, now);
      var (l', admitted) := Admit(cfg, l, now, n);
      locals := locals[key := l'];
      assert locals == old(locals)[key := l'];
      ok := admitted;
    }

    method AvailableFor(key: string, now: real) returns (a: Answer)
      modifies this
      ensures (View(), a) == Handle(cfg, prefix, old(View()), Available(now, key))
    {
      if !cfg.enabled {
        return Unlimited;
      }
      var l := GetLocalLimiter(key, now);
      var (l', amount) := Look(cfg, l, now);
      locals := locals[key := l'];
      assert locals == old(locals)[key := l'];
      a := Room(amount);
    }
  }
}
