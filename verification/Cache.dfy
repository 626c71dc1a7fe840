/**
 The two-tier response cache of crates/gateway-cache: one in-process L1 per replica, one shared Redis
 L2, on one clock in milliseconds. Entries carry the number of the store call that made them, so
 that a hit can be traced back.
 */
module Cache {
  import opened Numbers

  // ---- Cache-Control ----

  datatype CacheControl = CacheControl(
    noStore: bool, noCache: bool, private_: bool, maxAge: Option<nat>, sMaxage: Option<nat>)

  predicate IsUncacheable(cc: CacheControl)
  {
    cc.noStore || cc.noCache
  }

  /** `s-maxage` takes precedence over `max-age`. */
  function SharedTtl(cc: CacheControl): Option<nat>
  {
    if cc.sMaxage.Some? then cc.sMaxage else cc.maxAge
  }

  /** `resolve_ttl`, in seconds; None means do not cache. */
  function ResolveTtl(cc: Option<CacheControl>, routeTtl: nat): Option<nat>
  {
    match cc
    case None => Some(routeTtl)
    case Some(cc) =>
      if IsUncacheable(cc) then None
      else
        match SharedTtl(cc)
        case Some(ttl) => Some(if ttl < routeTtl then ttl else routeTtl)
        case None => Some(routeTtl)
  }

  // ---- Requests, responses, entries ----

  datatype Config = Config(ttl: nat, readOnly: bool)

  /** The key a request starts from, and what named Vary headers append to it, after a colon, for this request. */
  datatype Request = Request(cacheable: bool, baseKey: string, suffix: seq<string> -> string)

  /** `CacheKey::with_vary`. */
  function WithVary(req: Request, names: seq<string>): string
  {
    if names == [] then req.baseKey else req.baseKey + ":" + req.suffix(names)
  }

  /** An upstream response; `vary` is None when the header is absent or `*`. */
  datatype Response = Response(status: nat, cacheControl: Option<CacheControl>, vary: Option<seq<string>>, body: string)

  datatype CachedResponse = CachedResponse(status: nat, body: string, ttlSecs: nat, storedAtSecs: nat, vary: seq<string>)

  datatype Entry = Entry(cached: CachedResponse, origin: nat)

  type L1 = map<string, Entry>

  /** A value under SETEX: Redis drops it once its TTL has passed. */
  datatype Slot = Slot(entry: Entry, writtenMs: nat)

  type L2 = map<string, Slot>

  datatype Lookup = Hit(entry: Entry) | Miss | Bypass

  /** What one accepted store call did. */
  datatype Record = Record(replica: nat, createdMs: nat, response: Response, routeTtl: nat, key: string)

  predicate IsPrivate(r: Response)
  {
    r.cacheControl.Some? && r.cacheControl.value.private_
  }

  /** The gates of `store`. */
  predicate Storable(cfg: Option<Config>, r: Response)
  {
    && cfg.Some? && !cfg.value.readOnly
    && 200 <= r.status < 300
    && ResolveTtl(r.cacheControl, cfg.value.ttl).Some?
    && r.vary.Some?
  }

  function EntryOf(rec: Record, origin: nat): Entry
    requires ResolveTtl(rec.response.cacheControl, rec.routeTtl).Some? && rec.response.vary.Some?
  {
    Entry(CachedResponse(rec.response.status, rec.response.body,
                         ResolveTtl(rec.response.cacheControl, rec.routeTtl).value,
                         rec.createdMs / 1000, rec.response.vary.value),
          origin)
  }

  /** `is_expired`: whole seconds. */
  predicate Expired(e: Entry, nowMs: nat)
  {
    var now := nowMs / 1000;
    (if now >= e.cached.storedAtSecs then now - e.cached.storedAtSecs else 0) >= e.cached.ttlSecs
  }

  predicate SlotLive(s: Slot, nowMs: nat)
  {
    nowMs < s.writtenMs + 1000 * s.entry.cached.ttlSecs
  }

  // ---- Reading ----

  function L1Get(l1: L1, key: string, nowMs: nat): Option<Entry>
  {
    if key in l1 && !Expired(l1[key], nowMs) then Some(l1[key]) else None
  }

  /** Lazy removal: an expired entry is dropped by the read that finds it. */
  function L1AfterGet(l1: L1, key: string, nowMs: nat): L1
  {
    if key in l1 && Expired(l1[key], nowMs) then l1 - {key} else l1
  }

  /**
   What `lookup` does next: it is finished, reads L1 a second time, or waits for Redis to read a key.
   Other threads of the replica may come in between.
   */
  datatype Turn = Return(answer: Lookup) | Reread(key: string) | Ask(key: string)

  /** `lookup` up to its first read of L1, at the base key. */
  function BeginTurn(cfg: Option<Config>, l1: L1, req: Request, nowMs: nat): Turn
  {
    if cfg.None? || !req.cacheable then Return(Bypass)
    else
      match L1Get(l1, req.baseKey, nowMs)
      case Some(e) => Reread(WithVary(req, e.cached.vary))
      case None => Ask(req.baseKey)
  }

  /** What that leaves in L1. */
  function L1AfterBegin(cfg: Option<Config>, l1: L1, req: Request, nowMs: nat): L1
  {
    if cfg.None? || !req.cacheable then l1 else L1AfterGet(l1, req.baseKey, nowMs)
  }

  /** The second read of L1, at the key that the Vary names of the first give. */
  function RereadTurn(l1: L1, req: Request, key: string, nowMs: nat): Turn
  {
    match L1Get(l1, key, nowMs)
    case Some(e) => Return(Hit(e))
    case None => Ask(req.baseKey)
  }

  /** `lookup` when Redis has answered for the base key. A Redis error reads as a miss. */
  function BaseTurn(req: Request, base: Option<Entry>): Turn
  {
    match base
    case None => Return(Miss)
    case Some(e) =>
      var key := WithVary(req, e.cached.vary);
      if key == req.baseKey then Return(Hit(e)) else Ask(key)
  }

  /** `lookup` when Redis has answered for the Vary key: the base entry stands in for a missing one. */
  function VaryChoice<T>(base: T, varied: Option<T>): T
  {
    if varied.Some? then varied.value else base
  }

  // ---- The in-process tier, step by step ----

  /** An insertion into a bounded map: below capacity nothing else changes, at capacity one entry makes room. */
  ghost predicate Inserted(before: L1, after: L1, key: string, entry: Entry, capacity: nat)
  {
    if |before| < capacity || before == map[] then after == before[key := entry]
    else exists victim | victim in before :: after == (before - {victim})[key := entry]
  }

  /** `L1Cache`: a bounded map. */
  class L1Cache {
    var store: L1
    const capacity: nat

    ghost predicate Valid()
      reads this
    {
      |store| <= if capacity == 0 then 1 else capacity
    }

    constructor (capacity: nat)
      ensures Valid() && store == map[] && this.capacity == capacity
    {
      store := map[];
      this.capacity := capacity;
    }

    method Get(key: string, nowMs: nat) returns (r: Option<Entry>)
      requires Valid()
      modifies this
      ensures Valid()
      ensures r == L1Get(old(store), key, nowMs) && store == L1AfterGet(old(store), key, nowMs)
      ensures r.Some? ==> key in store && r.value == store[key] && !Expired(r.value, nowMs)
      ensures r.None? ==> key !in store
      ensures store - {key} == old(store) - {key}
    {
      if key !in store { return None; }
      var entry := store[key];
      if Expired(entry, nowMs) {
        store := store - {key};
        return None;
      }
      r := Some(entry);
    }

    /** Makes room for one entry by dropping at most one other, and never exceeds the capacity. */
    method Put(key: string, entry: Entry)
      requires Valid()
      modifies this
      ensures Valid()
      ensures Inserted(old(store), store, key, entry, capacity)
    {
      if |store| >= capacity {
        EvictOne();
      }
      store := store[key := entry];
    }

    method EvictOne()
      modifies this
      ensures old(store) == map[] ==> store == map[]
      ensures old(store) != map[] ==> exists victim | victim in old(store) :: store == old(store) - {victim}
    {
      if store != map[] {
        assert store.Keys != {};
        var victim :| victim in store;
        store := store - {victim};
      }
    }
  }

  /** An insertion is that of an unbounded map, followed by at most one eviction. */
  lemma InsertedIsEviction(before: L1, after: L1, key: string, entry: Entry, capacity: nat)
    requires Inserted(before, after, key, entry, capacity)
    ensures after == before[key := entry] || exists victim :: after == before[key := entry] - {victim}
  {
    if |before| >= capacity && before != map[] {
      var victim :| victim in before && after == (before - {victim})[key := entry];
      if victim == key {
        assert after == before[key := entry];
      } else {
        assert after == before[key := entry] - {victim};
      }
    }
  }

  /** `ResponseCache` on one replica: the stretches of `lookup` and `store` between their suspensions. */
  class ResponseCache {
    const l1: L1Cache

    constructor (capacity: nat)
      ensures fresh(l1) && l1.Valid() && l1.store == map[]
    {
      l1 := new L1Cache(capacity);
    }

    method BeginLookUp(cfg: Option<Config>, req: Request, nowMs: nat) returns (turn: Turn)
      requires l1.Valid()
      modifies l1
      ensures l1.Valid()
      ensures turn == BeginTurn(cfg, old(l1.store), req, nowMs)
      ensures turn.Return? <==> cfg.None? || !req.cacheable
      ensures turn.Return? ==> turn.answer == Bypass && l1.store == old(l1.store)
      ensures l1.store == L1AfterBegin(cfg, old(l1.store), req, nowMs)
    {
      if cfg.None? || !req.cacheable { return Return(Bypass); }
      var entry := l1.Get(req.baseKey, nowMs);
      turn := if entry.Some? then Reread(WithVary(req, entry.value.cached.vary)) else Ask(req.baseKey);
    }

    method RereadLocal(req: Request, key: string, nowMs: nat) returns (turn: Turn)
      requires l1.Valid()
      modifies l1
      ensures l1.Valid()
      ensures turn == RereadTurn(old(l1.store), req, key, nowMs)
      ensures turn == if key in l1.store then Return(Hit(l1.store[key])) else Ask(req.baseKey)
      ensures l1.store == L1AfterGet(old(l1.store), key, nowMs)
    {
      var varied := l1.Get(key, nowMs);
      turn := if varied.Some? then Return(Hit(varied.value)) else Ask(req.baseKey);
    }

    /** A hit is promoted under the base key; otherwise L1 stays as it is. */
    method BaseArrives(req: Request, base: Option<Entry>) returns (turn: Turn)
      requires l1.Valid()
      modifies l1
      ensures l1.Valid()
      ensures turn == BaseTurn(req, base)
      ensures base.None? ==> turn == Return(Miss)
      ensures base.Some? ==>
                turn == if base.value.cached.vary == [] then Return(Hit(base.value))
                        else Ask(WithVary(req, base.value.cached.vary))
      ensures if turn.Return? && turn.answer.Hit?
              then Inserted(old(l1.store), l1.store, req.baseKey, turn.answer.entry, l1.capacity)
              else l1.store == old(l1.store)
    {
      if base.None? { return Return(Miss); }
      assert base.value.cached.vary != [] ==> |WithVary(req, base.value.cached.vary)| > |req.baseKey|;
      var fullKey := WithVary(req, base.value.cached.vary);
      if fullKey != req.baseKey { return Ask(fullKey); }
      l1.Put(fullKey, base.value);
      turn := Return(Hit(base.value));
    }

    method VaryArrives(req: Request, base: Entry, varied: Option<Entry>) returns (turn: Turn)
      requires l1.Valid()
      modifies l1
      ensures l1.Valid()
      ensures turn == Return(Hit(if varied.Some? then varied.value else base)) == Return(Hit(VaryChoice(base, varied)))
      ensures Inserted(old(l1.store), l1.store, WithVary(req, base.cached.vary), turn.answer.entry, l1.capacity)
    {
      var finalEntry := base;
      if varied.Some? { finalEntry := varied.value; }
      l1.Put(WithVary(req, base.cached.vary), finalEntry);
      turn := Return(Hit(finalEntry));
    }

    /**
     Writes nothing unless every gate passes; then L1 always, and a SETEX is sent unless the response
     is private or its TTL is zero.
     */
    method StoreResponse(cfg: Option<Config>, req: Request, response: Response, nowMs: nat, origin: nat)
      returns (sent: Option<Put>)
      requires l1.Valid()
      modifies l1
      ensures l1.Valid()
      ensures var cc := response.cacheControl;
              var stored := cfg.Some? && !cfg.value.readOnly && 200 <= response.status < 300 && response.vary.Some?
                            && !(cc.Some? && (cc.value.noStore || cc.value.noCache));
              && (stored <==> Storable(cfg, response))
              && (!stored ==> l1.store == old(l1.store) && sent == None)
              && (sent.Some? <==> stored && !(cc.Some? && cc.value.private_) && ResolveTtl(cc, cfg.value.ttl).value > 0)
      ensures Storable(cfg, response) ==>
                var key := WithVary(req, response.vary.value);
                var entry := EntryOf(Record(0, nowMs, response, cfg.value.ttl, key), origin);
                Inserted(old(l1.store), l1.store, key, entry, l1.capacity) && (sent.Some? ==> sent == Some(Put(key, entry)))
    {
      if cfg.None? || cfg.value.readOnly { return None; }
      if !(200 <= response.status < 300) { return None; }
      var ttl := ResolveTtl(response.cacheControl, cfg.value.ttl);
      if ttl.None? { return None; }
      if response.vary.None? { return None; }
      TtlIsMinimum(response.cacheControl, cfg.value.ttl);
      var key := WithVary(req, response.vary.value);
      var isPrivate := IsPrivate(response);
      var entry := Entry(
        CachedResponse(response.status, response.body, ttl.value, nowMs / 1000, response.vary.value), origin);
      l1.Put(key, entry);
      if isPrivate || ttl.value == 0 { return None; }
      sent := Some(Put(key, entry));
    }
  }

  // ---- Replicas over one Redis ----

  /** A SETEX on its way to Redis. */
  datatype Put = Put(key: string, entry: Entry)

  /** What a GET found: the entry, when Redis had stored it, and when Redis read it. */
  datatype Found = Found(entry: Entry, writtenMs: nat, readMs: nat)

  /** Where a lookup stands. */
  datatype Stage =
    | ReadLocal(key: string)                             // L1 had the base key; second read to come
    | AskBase                                            // GET for the base key on its way
    | BaseReply(reply: Option<Found>)                    // answer on its way back
    | AskVary(base: Found)                               // GET for the Vary key on its way
    | VaryReply(base: Found, varied: Option<Found>)      // answer on its way back

  datatype Looking = Looking(replica: nat, req: Request, stage: Stage)

  datatype State = State(
    nowMs: nat,
    l1: map<nat, L1>,
    l2: L2,
    inFlight: map<nat, Put>,
    looking: map<nat, Looking>,
    log: seq<Record>)

  datatype Event =
    | Tick(ms: nat)
    | Store(replica: nat, cfg: Option<Config>, req: Request, response: Response)
    | PutArrives(id: nat)
    | PutLost(id: nat)
    | Look(id: nat, replica: nat, cfg: Option<Config>, req: Request)
    | RedisReads(id: nat, up: bool)
    | Resume(id: nat)
    | Abandon(id: nat)
    | Evict(replica: nat, key: string)
    | RedisDrops(key: string)

  const EMPTY := State(0, map[], map[], map[], map[], [])

  function LocalTier(s: State, replica: nat): L1
  {
    if replica in s.l1 then s.l1[replica] else map[]
  }

  function SetLocal(s: State, replica: nat, l1: L1): State
  {
    s.(l1 := s.l1[replica := l1])
  }

  function SetStage(s: State, id: nat, stage: Stage): State
    requires id in s.looking
  {
    s.(looking := s.looking[id := s.looking[id].(stage := stage)])
  }

  /** A GET, at the moment Redis executes it. */
  function Read(s: State, key: string, up: bool): Option<Found>
  {
    if up && key in s.l2 && SlotLive(s.l2[key], s.nowMs)
    then Some(Found(s.l2[key].entry, s.l2[key].writtenMs, s.nowMs)) else None
  }

  function BaseOf(stage: Stage): Option<Found>
  {
    match stage
    case ReadLocal(_) => None
    case AskBase => None
    case BaseReply(reply) => reply
    case AskVary(base) => Some(base)
    case VaryReply(base, _) => Some(base)
  }

  /** What the lookup returns once it resumes, if that is a hit. */
  function Final(look: Looking): Option<Found>
  {
    match look.stage
    case BaseReply(Some(base)) =>
      if BaseTurn(look.req, Some(base.entry)).Return? then Some(base) else None
    case VaryReply(base, varied) => Some(VaryChoice(base, varied))
    case _ => None
  }

  function FirstStage(turn: Turn): Stage
    requires !turn.Return?
  {
    if turn.Reread? then ReadLocal(turn.key) else AskBase
  }

  function NextLook(s: State, id: nat, replica: nat, cfg: Option<Config>, req: Request): State
  {
    var l1 := LocalTier(s, replica);
    var turn := BeginTurn(cfg, l1, req, s.nowMs);
    var t := SetLocal(s, replica, L1AfterBegin(cfg, l1, req, s.nowMs));
    if turn.Return? then t else t.(looking := s.looking[id := Looking(replica, req, FirstStage(turn))])
  }

  /** The second read of L1, and where it leads. */
  function NextReread(s: State, id: nat, key: string): State
    requires id in s.looking
  {
    var look := s.looking[id];
    var l1 := LocalTier(s, look.replica);
    var t := SetLocal(s, look.replica, L1AfterGet(l1, key, s.nowMs));
    if RereadTurn(l1, look.req, key, s.nowMs).Return? then t.(looking := s.looking - {id})
    else t.(looking := s.looking[id := look.(stage := AskBase)])
  }

  function NextRead(s: State, id: nat, up: bool): State
    requires id in s.looking
  {
    var look := s.looking[id];
    match look.stage
    case AskBase => SetStage(s, id, BaseReply(Read(s, look.req.baseKey, up)))
    case AskVary(base) => SetStage(s, id, VaryReply(base, Read(s, WithVary(look.req, base.entry.cached.vary), up)))
    case _ => s
  }

  /** A returned hit is promoted to L1 first. */
  function NextResume(s: State, id: nat): State
    requires id in s.looking
  {
    var look := s.looking[id];
    match Final(look)
    case Some(found) =>
      var key := WithVary(look.req, BaseOf(look.stage).value.entry.cached.vary);
      SetLocal(s, look.replica, LocalTier(s, look.replica)[key := found.entry]).(looking := s.looking - {id})
    case None =>
      match look.stage
      case ReadLocal(key) => NextReread(s, id, key)
      case BaseReply(None) => s.(looking := s.looking - {id})
      case BaseReply(Some(base)) => SetStage(s, id, AskVary(base))
      case _ => s
  }

  function NextStore(s: State, replica: nat, cfg: Option<Config>, req: Request, response: Response): State
    requires Storable(cfg, response)
  {
    var rec := Record(replica, s.nowMs, response, cfg.value.ttl, WithVary(req, response.vary.value));
    var entry := EntryOf(rec, |s.log|);
    var stored := s.(log := s.log + [rec], l1 := s.l1[replica := LocalTier(s, replica)[rec.key := entry]]);
    // private responses stay local; a TTL of zero is never written
    if IsPrivate(response) || entry.cached.ttlSecs == 0 then stored
    else stored.(inFlight := s.inFlight[|s.log| := Put(rec.key, entry)])
  }

  function Next(s: State, e: Event): State
  {
    match e
    case Tick(ms) => s.(nowMs := s.nowMs + ms)
    case Store(replica, cfg, req, response) =>
      if Storable(cfg, response) then NextStore(s, replica, cfg, req, response) else s
    case PutArrives(id) =>
      if id !in s.inFlight then s
      else s.(l2 := s.l2[s.inFlight[id].key := Slot(s.inFlight[id].entry, s.nowMs)], inFlight := s.inFlight - {id})
    case PutLost(id) => s.(inFlight := s.inFlight - {id})
    case Look(id, replica, cfg, req) => if id in s.looking then s else NextLook(s, id, replica, cfg, req)
    case RedisReads(id, up) => if id in s.looking then NextRead(s, id, up) else s
    case Resume(id) => if id in s.looking then NextResume(s, id) else s
    case Abandon(id) => s.(looking := s.looking - {id})
    case Evict(replica, key) => SetLocal(s, replica, LocalTier(s, replica) - {key})
    case RedisDrops(key) => s.(l2 := s.l2 - {key})
  }

  function Run(events: seq<Event>): State
  {
    if events == [] then EMPTY else Next(Run(events[..|events| - 1]), events[|events| - 1])
  }

  /** A hit, as the client gets it; how long its SETEX took, and how long its answer took to come back. */
  datatype Served = Served(replica: nat, req: Request, entry: Entry, writeDelay: nat, readDelay: nat)

  function CreatedMs(s: State, e: Entry): nat
  {
    if e.origin < |s.log| then s.log[e.origin].createdMs else 0
  }

  function Minus(x: nat, y: nat): nat
  {
    if x >= y then x - y else 0
  }

  /** The hit that this event returns, if it returns one. */
  function Serves(s: State, e: Event): Option<Served>
  {
    if !(e.Resume? && e.id in s.looking) then None
    else
      var look := s.looking[e.id];
      match Final(look)
      case Some(found) =>
        Some(Served(look.replica, look.req, found.entry,
                    Minus(found.writtenMs, CreatedMs(s, found.entry)), Minus(s.nowMs, found.readMs)))
      case None =>
        if !look.stage.ReadLocal? then None
        else
          match RereadTurn(LocalTier(s, look.replica), look.req, look.stage.key, s.nowMs)
          case Return(Hit(entry)) => Some(Served(look.replica, look.req, entry, 0, 0))
          case _ => None
  }

  // ---- Where entries come from ----

  /** The entry is what the store call it names made, that call passed every gate, and it is past. */
  predicate Genuine(s: State, e: Entry)
  {
    && e.origin < |s.log|
    && var rec := s.log[e.origin];
       && rec.createdMs <= s.nowMs
       && Storable(Some(Config(rec.routeTtl, false)), rec.response)
       && e == EntryOf(rec, e.origin)
  }

  /** Stored under this key; or, if it names Vary headers, possibly under a prefix of it. */
  predicate StoredUnder(s: State, e: Entry, key: string)
    requires e.origin < |s.log|
  {
    var stored := s.log[e.origin].key;
    stored == key || (e.cached.vary != [] && stored <= key)
  }

  predicate LocalOk(s: State, replica: nat, key: string, e: Entry)
  {
    && Genuine(s, e) && StoredUnder(s, e, key)
    && (IsPrivate(s.log[e.origin].response) ==> s.log[e.origin].replica == replica)
  }

  predicate SharedOk(s: State, key: string, e: Entry)
  {
    Genuine(s, e) && s.log[e.origin].key == key && !IsPrivate(s.log[e.origin].response) && e.cached.ttlSecs >= 1
  }

  /** Found under this key, written after it was made, and read before its TTL had passed. */
  predicate FoundOk(s: State, key: string, f: Found)
  {
    && SharedOk(s, key, f.entry)
    && s.log[f.entry.origin].createdMs <= f.writtenMs <= f.readMs <= s.nowMs
    && f.readMs < f.writtenMs + 1000 * f.entry.cached.ttlSecs
  }

  predicate StageOk(s: State, look: Looking)
  {
    && look.req.cacheable
    && (BaseOf(look.stage).Some? ==> FoundOk(s, look.req.baseKey, BaseOf(look.stage).value))
    && (look.stage.VaryReply? && look.stage.varied.Some? ==>
          FoundOk(s, WithVary(look.req, look.stage.base.entry.cached.vary), look.stage.varied.value))
  }

  ghost predicate LocalInv(s: State)
  {
    forall r, k | r in s.l1 && k in s.l1[r] :: LocalOk(s, r, k, s.l1[r][k])
  }

  predicate SlotOk(s: State, key: string, slot: Slot)
  {
    SharedOk(s, key, slot.entry) && s.log[slot.entry.origin].createdMs <= slot.writtenMs <= s.nowMs
  }

  ghost predicate SharedInv(s: State)
  {
    forall k | k in s.l2 :: SlotOk(s, k, s.l2[k])
  }

  ghost predicate FlightInv(s: State)
  {
    forall i | i in s.inFlight :: SharedOk(s, s.inFlight[i].key, s.inFlight[i].entry)
  }

  ghost predicate LookingInv(s: State)
  {
    forall i | i in s.looking :: StageOk(s, s.looking[i])
  }

  ghost predicate Inv(s: State)
  {
    LocalInv(s) && SharedInv(s) && FlightInv(s) && LookingInv(s)
  }

  /** The log only grows and time only advances. */
  predicate Later(s: State, t: State)
  {
    s.log <= t.log && s.nowMs <= t.nowMs
  }

  lemma OkPersists(s: State, t: State, e: Entry)
    requires Later(s, t) && Genuine(s, e)
    ensures Genuine(t, e) && t.log[e.origin] == s.log[e.origin]
  {}

  lemma NextIsLater(s: State, e: Event)
    ensures Later(s, Next(s, e))
  {}

  /** A store call that passes the gates logs one record, and the entry it makes is genuine. */
  lemma StoreIsGenuine(s: State, e: Event)
    requires Stores(e)
    ensures LocalOk(Next(s, e), e.replica, StoreKey(e), StoreEntry(s, e))
    ensures !IsPrivate(e.response) && StoreEntry(s, e).cached.ttlSecs >= 1 ==>
              SharedOk(Next(s, e), StoreKey(e), StoreEntry(s, e))
  {
    assert Next(s, e).log[|s.log|] == Record(e.replica, s.nowMs, e.response, e.cfg.value.ttl, StoreKey(e));
  }

  /** What a lookup brought back from Redis may be kept locally, by any replica. */
  lemma FinalIsOk(s: State, look: Looking)
    requires StageOk(s, look) && Final(look).Some?
    ensures BaseOf(look.stage).Some?
    ensures var found := Final(look).value; var key := WithVary(look.req, BaseOf(look.stage).value.entry.cached.vary);
            && (FoundOk(s, look.req.baseKey, found) || FoundOk(s, key, found))
            && (forall replica :: LocalOk(s, replica, key, found.entry))
  {
    var key := WithVary(look.req, BaseOf(look.stage).value.entry.cached.vary);
    assert look.req.baseKey <= key;
  }

  // ---- What an event can change, map by map ----

  predicate Stores(e: Event)
  {
    e.Store? && Storable(e.cfg, e.response)
  }

  function StoreKey(e: Event): string
    requires Stores(e)
  {
    WithVary(e.req, e.response.vary.value)
  }

  function StoreEntry(s: State, e: Event): Entry
    requires Stores(e)
  {
    EntryOf(Record(e.replica, s.nowMs, e.response, e.cfg.value.ttl, StoreKey(e)), |s.log|)
  }

  /** The event resumes a lookup that returns a hit. */
  predicate Promotes(s: State, e: Event)
  {
    e.Resume? && e.id in s.looking && Final(s.looking[e.id]).Some?
  }

  function PromotedKey(look: Looking): string
    requires Final(look).Some?
  {
    WithVary(look.req, BaseOf(look.stage).value.entry.cached.vary)
  }

  predicate KeptLocal(s: State, r: nat, k: string, e: Entry)
  {
    r in s.l1 && k in s.l1[r] && s.l1[r][k] == e
  }

  /** A local entry was there before, or was just stored, or was just promoted. */
  lemma LocalOrigin(s: State, e: Event, r: nat, k: string)
    requires r in Next(s, e).l1 && k in Next(s, e).l1[r]
    ensures var entry := Next(s, e).l1[r][k];
            || KeptLocal(s, r, k, entry)
            || (Stores(e) && r == e.replica && k == StoreKey(e) && entry == StoreEntry(s, e))
            || (Promotes(s, e) && r == s.looking[e.id].replica && k == PromotedKey(s.looking[e.id])
                && entry == Final(s.looking[e.id]).value.entry)
  {
    if e.Look? {
      if e.id !in s.looking { LookOnlyRemoves(s, e.id, e.replica, e.cfg, e.req, r, k); }
    } else if e.Resume? && e.id in s.looking {
      ResumeOnlyPromotes(s, e.id, r, k);
    }
  }

  lemma RereadOnlyRemoves(s: State, id: nat, key: string, r: nat, k: string)
    requires id in s.looking
    requires r in NextReread(s, id, key).l1 && k in NextReread(s, id, key).l1[r]
    ensures KeptLocal(s, r, k, NextReread(s, id, key).l1[r][k])
  {}

  lemma ResumeOnlyPromotes(s: State, id: nat, r: nat, k: string)
    requires id in s.looking
    requires r in NextResume(s, id).l1 && k in NextResume(s, id).l1[r]
    ensures var look := s.looking[id]; var entry := NextResume(s, id).l1[r][k];
            || KeptLocal(s, r, k, entry)
            || (Final(look).Some? && r == look.replica && k == PromotedKey(look) && entry == Final(look).value.entry)
  {
    if Final(s.looking[id]).None? && s.looking[id].stage.ReadLocal? {
      RereadOnlyRemoves(s, id, s.looking[id].stage.key, r, k);
    }
  }

  lemma LookOnlyRemoves(s: State, id: nat, replica: nat, cfg: Option<Config>, req: Request, r: nat, k: string)
    requires r in NextLook(s, id, replica, cfg, req).l1 && k in NextLook(s, id, replica, cfg, req).l1[r]
    ensures KeptLocal(s, r, k, NextLook(s, id, replica, cfg, req).l1[r][k])
  {}

  /** A slot was there before, or its SETEX has just arrived. */
  lemma SharedOrigin(s: State, e: Event, k: string)
    requires k in Next(s, e).l2
    ensures || (k in s.l2 && Next(s, e).l2[k] == s.l2[k])
            || (e.PutArrives? && e.id in s.inFlight && k == s.inFlight[e.id].key
                && Next(s, e).l2[k] == Slot(s.inFlight[e.id].entry, s.nowMs))
  {}

  /** A SETEX was on its way before, or has just been sent for a response that is not private. */
  lemma FlightOrigin(s: State, e: Event, i: nat)
    requires i in Next(s, e).inFlight
    ensures || (i in s.inFlight && Next(s, e).inFlight[i] == s.inFlight[i])
            || (Stores(e) && !IsPrivate(e.response) && StoreEntry(s, e).cached.ttlSecs >= 1
                && Next(s, e).inFlight[i] == Put(StoreKey(e), StoreEntry(s, e)))
  {}

  /** What the first read of L1 leads to: nothing there, or an entry whose Vary names give the second key. */
  ghost predicate Begun(s: State, e: Event, look: Looking)
    requires e.Look?
  {
    && look.replica == e.replica && look.req == e.req && e.req.cacheable
    && (look.stage.AskBase?
        || (L1Get(LocalTier(s, e.replica), e.req.baseKey, s.nowMs).Some?
            && look.stage == ReadLocal(
                 WithVary(e.req, L1Get(LocalTier(s, e.replica), e.req.baseKey, s.nowMs).value.cached.vary))))
  }

  /** A lookup was in this stage before, has just begun, goes on to Redis, has just been answered, or asks for its second key. */
  lemma LookingOrigin(s: State, e: Event, i: nat)
    requires i in Next(s, e).looking
    ensures var look := Next(s, e).looking[i];
            || (i in s.looking && look == s.looking[i])
            || (e.Look? && Begun(s, e, look))
            || (e.RedisReads? && e.id == i && i in s.looking && look == NextRead(s, i, e.up).looking[i])
            || (e.Resume? && e.id == i && i in s.looking && look == s.looking[i].(stage := AskBase))
            || (e.Resume? && e.id == i && i in s.looking && Final(s.looking[i]).None?
                && s.looking[i].stage.BaseReply? && s.looking[i].stage.reply.Some?
                && look == s.looking[i].(stage := AskVary(s.looking[i].stage.reply.value)))
  {
    if e.Resume? && e.id in s.looking { ResumeStage(s, e.id, i); }
  }

  lemma ResumeStage(s: State, id: nat, i: nat)
    requires id in s.looking && i in NextResume(s, id).looking
    ensures i in s.looking
    ensures var look := NextResume(s, id).looking[i];
            || look == s.looking[i]
            || (id == i && look == s.looking[i].(stage := AskBase))
            || (id == i && Final(s.looking[i]).None? && s.looking[i].stage.BaseReply? && s.looking[i].stage.reply.Some?
                && look == s.looking[i].(stage := AskVary(s.looking[i].stage.reply.value)))
  {}

  lemma LocalStep(s: State, e: Event)
    requires Inv(s)
    ensures LocalInv(Next(s, e))
  {
    var t := Next(s, e);
    NextIsLater(s, e);
    forall r, k | r in t.l1 && k in t.l1[r] ensures LocalOk(t, r, k, t.l1[r][k]) {
      LocalOrigin(s, e, r, k);
      if KeptLocal(s, r, k, t.l1[r][k]) {
        assert LocalOk(s, r, k, s.l1[r][k]);
        OkPersists(s, t, s.l1[r][k]);
      } else if Stores(e) {
        StoreIsGenuine(s, e);
      } else {
        assert StageOk(s, s.looking[e.id]);
        FinalIsOk(s, s.looking[e.id]);
        OkPersists(s, t, t.l1[r][k]);
      }
    }
  }

  lemma SharedStep(s: State, e: Event)
    requires Inv(s)
    ensures SharedInv(Next(s, e))
  {
    var t := Next(s, e);
    NextIsLater(s, e);
    forall k | k in t.l2 ensures SlotOk(t, k, t.l2[k]) {
      SharedOrigin(s, e, k);
      if k in s.l2 && t.l2[k] == s.l2[k] {
        assert SlotOk(s, k, s.l2[k]);
      } else {
        assert SharedOk(s, k, s.inFlight[e.id].entry);
      }
      OkPersists(s, t, t.l2[k].entry);
    }
  }

  lemma FlightStep(s: State, e: Event)
    requires Inv(s)
    ensures FlightInv(Next(s, e))
  {
    var t := Next(s, e);
    NextIsLater(s, e);
    forall i | i in t.inFlight ensures SharedOk(t, t.inFlight[i].key, t.inFlight[i].entry) {
      FlightOrigin(s, e, i);
      if i in s.inFlight && t.inFlight[i] == s.inFlight[i] {
        assert SharedOk(s, s.inFlight[i].key, s.inFlight[i].entry);
        OkPersists(s, t, s.inFlight[i].entry);
      } else {
        StoreIsGenuine(s, e);
      }
    }
  }

  lemma StagePersists(s: State, t: State, look: Looking)
    requires Later(s, t) && StageOk(s, look)
    ensures StageOk(t, look)
  {}

  lemma ReadIsOk(s: State, key: string, up: bool)
    requires SharedInv(s) && Read(s, key, up).Some?
    ensures FoundOk(s, key, Read(s, key, up).value)
  {
    assert SlotOk(s, key, s.l2[key]);
  }

  lemma ReadStage(s: State, id: nat, up: bool)
    requires SharedInv(s) && id in s.looking && StageOk(s, s.looking[id])
    ensures id in NextRead(s, id, up).looking && StageOk(s, NextRead(s, id, up).looking[id])
  {
    var look := s.looking[id];
    if look.stage.AskBase? && Read(s, look.req.baseKey, up).Some? { ReadIsOk(s, look.req.baseKey, up); }
    if look.stage.AskVary? {
      var key := WithVary(look.req, look.stage.base.entry.cached.vary);
      if Read(s, key, up).Some? { ReadIsOk(s, key, up); }
    }
  }

  lemma LookingStep(s: State, e: Event)
    requires Inv(s)
    ensures LookingInv(Next(s, e))
  {
    var t := Next(s, e);
    NextIsLater(s, e);
    forall i | i in t.looking ensures StageOk(t, t.looking[i]) {
      LookingOrigin(s, e, i);
      if i in s.looking {
        assert StageOk(s, s.looking[i]);
        if e.RedisReads? { ReadStage(s, i, e.up); }
      }
      assert StageOk(s, t.looking[i]);
      StagePersists(s, t, t.looking[i]);
    }
  }

  lemma {:induction false} RunInvariant(events: seq<Event>)
    ensures Inv(Run(events))
  {
    if events != [] {
      var n := |events| - 1;
      RunInvariant(events[..n]);
      LocalStep(Run(events[..n]), events[n]);
      SharedStep(Run(events[..n]), events[n]);
      FlightStep(Run(events[..n]), events[n]);
      LookingStep(Run(events[..n]), events[n]);
    }
  }

  // ---- Freshness and privacy ----

  /** Whole seconds below the TTL mean milliseconds below the TTL. */
  lemma LocalAge(e: Entry, createdMs: nat, nowMs: nat)
    requires e.cached.storedAtSecs == createdMs / 1000 && createdMs <= nowMs && !Expired(e, nowMs)
    ensures nowMs - createdMs < 1000 * e.cached.ttlSecs
  {}

  predicate ServedOk(s: State, hit: Served)
  {
    && Genuine(s, hit.entry) && hit.req.cacheable
    && (IsPrivate(s.log[hit.entry.origin].response) ==> s.log[hit.entry.origin].replica == hit.replica)
    && s.nowMs - s.log[hit.entry.origin].createdMs
       < 1000 * hit.entry.cached.ttlSecs + hit.writeDelay + hit.readDelay
  }

  /** A hit from the local tier, at its second read. */
  lemma RereadIsOk(s: State, e: Event)
    requires Inv(s) && Serves(s, e).Some? && s.looking[e.id].stage.ReadLocal?
    ensures ServedOk(s, Serves(s, e).value)
  {
    var look := s.looking[e.id];
    assert StageOk(s, look);
    var l1, key := LocalTier(s, look.replica), look.stage.key;
    assert LocalOk(s, look.replica, key, l1[key]);
    LocalAge(l1[key], s.log[l1[key].origin].createdMs, s.nowMs);
  }

  lemma ReplyIsOk(s: State, e: Event)
    requires Inv(s) && Serves(s, e).Some? && !s.looking[e.id].stage.ReadLocal?
    ensures ServedOk(s, Serves(s, e).value)
  {
    assert StageOk(s, s.looking[e.id]);
    FinalIsOk(s, s.looking[e.id]);
  }

  lemma HitIsOk(s: State, e: Event)
    requires Inv(s) && Serves(s, e).Some?
    ensures ServedOk(s, Serves(s, e).value)
  {
    if s.looking[e.id].stage.ReadLocal? { RereadIsOk(s, e); } else { ReplyIsOk(s, e); }
  }

  /**
   The TTL is the smaller of the route's and the upstream's, where `s-maxage` overrides `max-age` and
   no directive means no upstream limit; there is none exactly for no-store and no-cache.
   */
  lemma TtlIsMinimum(cc: Option<CacheControl>, routeTtl: nat)
    ensures ResolveTtl(cc, routeTtl).None? <==> cc.Some? && (cc.value.noStore || cc.value.noCache)
    ensures ResolveTtl(cc, routeTtl).Some? ==>
              var ttl := ResolveTtl(cc, routeTtl).value;
              if cc.Some? && cc.value.sMaxage.Some? then ttl == Least(cc.value.sMaxage.value, routeTtl)
              else if cc.Some? && cc.value.maxAge.Some? then ttl == Least(cc.value.maxAge.value, routeTtl)
              else ttl == routeTtl
  {}

  function Least(x: nat, y: nat): (m: nat)
    ensures m <= x && m <= y && (m == x || m == y)
  {
    if x < y then x else y
  }

  /**
   Freshness and privacy, over every run: a hit is a 2xx response with a Vary header that an earlier
   store call made, whose upstream forbade neither storing nor serving it unvalidated; it is younger
   than the smaller of the upstream's and the route's TTL, plus what its own SETEX and its own answer
   from Redis were delayed (nothing, when the local tier serves it); and a `private` response is
   served only by the replica that stored it.
   */
  lemma FreshAndPrivate(events: seq<Event>, e: Event)
    requires Serves(Run(events), e).Some?
    ensures var s := Run(events); var hit := Serves(s, e).value;
            && hit.entry.origin < |s.log|
            && var rec := s.log[hit.entry.origin]; var cc := rec.response.cacheControl;
               && hit.entry.cached.status == rec.response.status && hit.entry.cached.body == rec.response.body
               && 200 <= rec.response.status < 300 && rec.response.vary == Some(hit.entry.cached.vary)
               && (cc.Some? ==> !cc.value.noStore && !cc.value.noCache)
               && rec.createdMs <= s.nowMs
               && s.nowMs - rec.createdMs < 1000 * rec.routeTtl + hit.writeDelay + hit.readDelay
               && (cc.Some? && cc.value.sMaxage.Some? ==>
                     s.nowMs - rec.createdMs < 1000 * cc.value.sMaxage.value + hit.writeDelay + hit.readDelay)
               && (cc.Some? && cc.value.sMaxage.None? && cc.value.maxAge.Some? ==>
                     s.nowMs - rec.createdMs < 1000 * cc.value.maxAge.value + hit.writeDelay + hit.readDelay)
               && (cc.Some? && cc.value.private_ ==> rec.replica == hit.replica)
               && hit.req.cacheable
               && (s.looking[e.id].stage.ReadLocal? ==> hit.writeDelay == 0 && hit.readDelay == 0)
  {
    RunInvariant(events);
    var s := Run(events);
    HitIsOk(s, e);
    var rec := s.log[Serves(s, e).value.entry.origin];
    TtlIsMinimum(rec.response.cacheControl, rec.routeTtl);
  }

  /** Nothing that its upstream marked private, or that expires at once, is in Redis, on its way there, or on its way back. */
  lemma OnlyShareableIsShared(events: seq<Event>)
    ensures forall k | k in Run(events).l2 :: MayBeShared(Run(events), Run(events).l2[k].entry)
    ensures forall i | i in Run(events).inFlight :: MayBeShared(Run(events), Run(events).inFlight[i].entry)
    ensures forall i | i in Run(events).looking && BaseOf(Run(events).looking[i].stage).Some? ::
              MayBeShared(Run(events), BaseOf(Run(events).looking[i].stage).value.entry)
  {
    RunInvariant(events);
    var s := Run(events);
    forall k | k in s.l2 ensures MayBeShared(s, s.l2[k].entry) { assert SlotOk(s, k, s.l2[k]); }
    forall i | i in s.inFlight ensures MayBeShared(s, s.inFlight[i].entry) {
      assert SharedOk(s, s.inFlight[i].key, s.inFlight[i].entry);
    }
    forall i | i in s.looking && BaseOf(s.looking[i].stage).Some?
      ensures MayBeShared(s, BaseOf(s.looking[i].stage).value.entry)
    {
      assert StageOk(s, s.looking[i]);
    }
  }

  /** The entry lives for a second at least, and the response it was made from carried no `private` directive. */
  predicate MayBeShared(s: State, e: Entry)
  {
    && e.origin < |s.log| && e.cached.ttlSecs >= 1
    && match s.log[e.origin].response.cacheControl case Some(cc) => !cc.private_ case None => true
  }

  // ---- Exactly when hits can be stale ----

  lemma RunAppend(events: seq<Event>, e: Event)
    ensures Run(events + [e]) == Next(Run(events), e)
  {
    assert (events + [e])[..|events|] == events;
  }

  /** A response is stored, and its SETEX arrives after `lag` milliseconds. */
  function OneSlot(key: string, entry: Entry, rec: Record, lag: nat): State
  {
    State(lag, map[0 := map[key := entry]], map[key := Slot(entry, lag)], map[], map[], [rec])
  }

  lemma StoreThenArrive(cfg: Config, req: Request, response: Response, lag: nat) returns (events: seq<Event>)
    requires Storable(Some(cfg), response) && !IsPrivate(response)
    requires ResolveTtl(response.cacheControl, cfg.ttl).value >= 1
    ensures var rec := Record(0, 0, response, cfg.ttl, WithVary(req, response.vary.value));
            Run(events) == OneSlot(rec.key, EntryOf(rec, 0), rec, lag)
    ensures events == [Store(0, Some(cfg), req, response), Tick(lag), PutArrives(0)]
  {
    var store := Store(0, Some(cfg), req, response);
    RunAppend([], store);
    RunAppend([store], Tick(lag));
    RunAppend([store, Tick(lag)], PutArrives(0));
    assert [] + [store] == [store];
    assert [store] + [Tick(lag)] == [store, Tick(lag)];
    events := [store, Tick(lag), PutArrives(0)];
    assert [store, Tick(lag)] + [PutArrives(0)] == events;
    var rec := Record(0, 0, response, cfg.ttl, WithVary(req, response.vary.value));
    var s := Next(EMPTY, store);
    assert s.log == [rec] && s.inFlight == map[0 := Put(rec.key, EntryOf(rec, 0))];
    assert s.inFlight - {0} == map[];
  }

  lemma OtherReplicaAsks(s: State, cfg: Config, req: Request)
    requires s.looking == map[] && 1 !in s.l1 && req.cacheable
    ensures Next(s, Look(0, 1, Some(cfg), req)).looking == map[0 := Looking(1, req, AskBase)]
    ensures Next(s, Look(0, 1, Some(cfg), req)) == s.(l1 := s.l1[1 := map[]], looking := map[0 := Looking(1, req, AskBase)])
  {}

  /**
   The delays are real exceptions and the bound is tight: for every TTL, write delay and read delay
   there is a run in which another replica serves the response at the last millisecond of their sum.
   */
  lemma DelaysOutliveTtl(key: string, body: string, ttl: nat, writeDelay: nat, readDelay: nat)
    returns (events: seq<Event>, e: Event)
    requires ttl >= 1
    ensures HitWith(events, e, ttl, writeDelay, readDelay)
    ensures Age(events, e) == 1000 * ttl + writeDelay + readDelay - 1
  {
    events := AnswerOnItsWay(key, body, ttl, writeDelay);
    RunAppend(events, Tick(readDelay));
    events := events + [Tick(readDelay)];
    e := Resume(0);
  }

  /** Another replica's GET is answered in the last millisecond of the slot. */
  lemma AnswerOnItsWay(key: string, body: string, ttl: nat, writeDelay: nat) returns (events: seq<Event>)
    requires ttl >= 1
    ensures var s := Run(events); var rec := Record(0, 0, Response(200, None, Some([]), body), ttl, key);
            && s.nowMs == writeDelay + (1000 * ttl - 1) && s.log == [rec]
            && s.looking == map[0 := Looking(1, PlainRequest(key),
                                             BaseReply(Some(Found(EntryOf(rec, 0), writeDelay, s.nowMs))))]
  {
    var req, cfg, response := PlainRequest(key), Config(ttl, false), Response(200, None, Some([]), body);
    var rec := Record(0, 0, response, ttl, key);
    events := StoreThenArrive(cfg, req, response, writeDelay);
    var s0 := OneSlot(key, EntryOf(rec, 0), rec, writeDelay);
    RunAppend(events, Tick(1000 * ttl - 1));
    events := events + [Tick(1000 * ttl - 1)];
    var s1 := s0.(nowMs := writeDelay + (1000 * ttl - 1));
    RunAppend(events, Look(0, 1, Some(cfg), req));
    OtherReplicaAsks(s1, cfg, req);
    events := events + [Look(0, 1, Some(cfg), req)];
    RunAppend(events, RedisReads(0, true));
    events := events + [RedisReads(0, true)];
    assert Run(events).looking.Keys == {0};
  }

  function PlainRequest(key: string): Request
  {
    Request(true, key, names => "")
  }

  /** The event returns a hit with this TTL and these delays. */
  ghost predicate HitWith(events: seq<Event>, e: Event, ttl: nat, writeDelay: nat, readDelay: nat)
  {
    var hit := Serves(Run(events), e);
    hit.Some? && hit.value.entry.cached.ttlSecs == ttl
    && hit.value.writeDelay == writeDelay && hit.value.readDelay == readDelay
  }

  /** Milliseconds since the response that the event returns was made. */
  ghost function Age(events: seq<Event>, e: Event): nat
    requires Serves(Run(events), e).Some?
  {
    Minus(Run(events).nowMs, CreatedMs(Run(events), Serves(Run(events), e).value.entry))
  }

  lemma AgeBelow(events: seq<Event>, e: Event)
    requires Serves(Run(events), e).Some?
    ensures var hit := Serves(Run(events), e).value;
            Age(events, e) < 1000 * hit.entry.cached.ttlSecs + hit.writeDelay + hit.readDelay
  {
    RunInvariant(events);
    HitIsOk(Run(events), e);
  }

  /** Every hit with these delays is younger than its TTL, if and only if there are no delays. */
  lemma FreshIff(ttl: nat, writeDelay: nat, readDelay: nat)
    requires ttl >= 1
    ensures (forall events, e | HitWith(events, e, ttl, writeDelay, readDelay) :: Age(events, e) < 1000 * ttl)
            <==> writeDelay + readDelay == 0
  {
    if writeDelay + readDelay == 0 {
      forall events, e | HitWith(events, e, ttl, writeDelay, readDelay) ensures Age(events, e) < 1000 * ttl {
        AgeBelow(events, e);
      }
    } else {
      var events, e := DelaysOutliveTtl("", "", ttl, writeDelay, readDelay);
      assert HitWith(events, e, ttl, writeDelay, readDelay) && Age(events, e) >= 1000 * ttl;
    }
  }

  // ---- What is served at all ----

  /** An entry without Vary names under the base key is served by the local tier until it expires. */
  lemma LocalTierServes(s: State, id: nat, replica: nat, cfg: Option<Config>, req: Request)
    requires cfg.Some? && req.cacheable && id !in s.looking
    requires req.baseKey in LocalTier(s, replica) && LocalTier(s, replica)[req.baseKey].cached.vary == []
    ensures var entry := LocalTier(s, replica)[req.baseKey];
            Serves(Next(s, Look(id, replica, cfg, req)), Resume(id))
            == if Expired(entry, s.nowMs) then None else Some(Served(replica, req, entry, 0, 0))
  {
    var t := Next(s, Look(id, replica, cfg, req));
    if !Expired(LocalTier(s, replica)[req.baseKey], s.nowMs) {
      assert t.looking[id] == Looking(replica, req, ReadLocal(req.baseKey));
    } else {
      assert t.looking[id] == Looking(replica, req, AskBase);
    }
  }

  /** A response with an empty Vary list is served back by its replica's local tier exactly until it expires. */
  lemma StoredIsServed(s: State, id: nat, e: Event, ms: nat)
    requires Stores(e) && e.response.vary == Some([]) && e.req.cacheable && id !in s.looking
    ensures var age := (s.nowMs + ms) / 1000 - s.nowMs / 1000;
            var t := Next(Next(s, e), Tick(ms));
            Serves(Next(t, Look(id, e.replica, e.cfg, e.req)), Resume(id))
            == if age < ResolveTtl(e.response.cacheControl, e.cfg.value.ttl).value
               then Some(Served(e.replica, e.req, StoreEntry(s, e), 0, 0)) else None
  {
    var t := Next(Next(s, e), Tick(ms));
    assert LocalTier(t, e.replica) == LocalTier(s, e.replica)[e.req.baseKey := StoreEntry(s, e)];
    LocalTierServes(t, id, e.replica, e.cfg, e.req);
  }

  /** What Redis has served once, the replica then serves on its own until it expires: hits are promoted. */
  lemma PromotedIsServed(s: State, id: nat, again: nat, cfg: Option<Config>)
    requires Promotes(s, Resume(id)) && s.looking[id].stage.BaseReply? && s.looking[id].req.cacheable
    requires cfg.Some? && again !in Next(s, Resume(id)).looking
    ensures var look := s.looking[id]; var t := Next(s, Resume(id)); var entry := Serves(s, Resume(id)).value.entry;
            Serves(Next(t, Look(again, look.replica, cfg, look.req)), Resume(again))
            == if Expired(entry, s.nowMs) then None else Some(Served(look.replica, look.req, entry, 0, 0))
  {
    var look, t := s.looking[id], Next(s, Resume(id));
    var entry := look.stage.reply.value.entry;
    assert entry.cached.vary != [] ==> |WithVary(look.req, entry.cached.vary)| > |look.req.baseKey|;
    assert LocalTier(t, look.replica)[look.req.baseKey] == entry;
    LocalTierServes(t, again, look.replica, cfg, look.req);
  }

  // ---- Named Vary headers ----

  /** Under one base key, two requests share a variant exactly when the named headers read the same in both. */
  lemma VariantsKeptApart(a: Request, b: Request, names: seq<string>)
    requires a.baseKey == b.baseKey && names != []
    ensures WithVary(a, names) == WithVary(b, names) <==> a.suffix(names) == b.suffix(names)
    ensures WithVary(a, names) != a.baseKey
  {
    var base := a.baseKey + ":";
    assert WithVary(a, names)[|base|..] == a.suffix(names) && WithVary(b, names)[|base|..] == b.suffix(names);
    assert |WithVary(a, names)| > |a.baseKey|;
  }

  /** Once Redis has answered for both keys, the variant is served where there is one, the base entry only in its place. */
  lemma VariantIsPreferred(s: State, id: nat)
    requires id in s.looking && s.looking[id].stage.VaryReply?
    ensures Serves(s, Resume(id)).Some?
    ensures var stage := s.looking[id].stage; var entry := Serves(s, Resume(id)).value.entry;
            entry == if stage.varied.Some? then stage.varied.value.entry else stage.base.entry
  {}

  /** The event looks up base keys from `bases` only, and stores no response under an extended key among them. */
  predicate Apart(bases: set<string>, e: Event)
  {
    && (e.Look? ==> e.req.baseKey in bases)
    && (e.Store? && e.response.vary.Some? && e.response.vary.value != [] ==>
          WithVary(e.req, e.response.vary.value) !in bases)
  }

  ghost predicate AllApart(bases: set<string>, events: seq<Event>)
  {
    forall k | 0 <= k < |events| :: Apart(bases, events[k])
  }

  /** No entry with named Vary headers is under a key that a lookup starts from. */
  predicate Unreachable(bases: set<string>, key: string, e: Entry)
  {
    e.cached.vary != [] ==> key !in bases
  }

  /** Under a base key only entries without Vary names are found, so no lookup asks for a second key. */
  predicate PlainStage(bases: set<string>, look: Looking)
  {
    && look.req.baseKey in bases && !look.stage.AskVary? && !look.stage.VaryReply?
    && (look.stage.ReadLocal? ==> look.stage.key == look.req.baseKey)
    && (BaseOf(look.stage).Some? ==> BaseOf(look.stage).value.entry.cached.vary == [])
  }

  ghost predicate NamedInv(bases: set<string>, s: State)
  {
    && (forall r, k | r in s.l1 && k in s.l1[r] :: Unreachable(bases, k, s.l1[r][k]))
    && (forall k | k in s.l2 :: Unreachable(bases, k, s.l2[k].entry))
    && (forall i | i in s.inFlight :: Unreachable(bases, s.inFlight[i].key, s.inFlight[i].entry))
    && (forall i | i in s.looking :: PlainStage(bases, s.looking[i]))
  }

  /** A lookup in a plain stage that resumes with a hit returns a plain entry, under its base key. */
  lemma PlainFinal(bases: set<string>, look: Looking)
    requires PlainStage(bases, look) && Final(look).Some?
    ensures Final(look).value.entry.cached.vary == [] && PromotedKey(look) == look.req.baseKey
    ensures Final(look) == BaseOf(look.stage)
  {}

  lemma NamedStep(bases: set<string>, s: State, e: Event)
    requires NamedInv(bases, s) && Apart(bases, e)
    ensures NamedInv(bases, Next(s, e))
  {
    var t := Next(s, e);
    forall r, k | r in t.l1 && k in t.l1[r] ensures Unreachable(bases, k, t.l1[r][k]) {
      LocalOrigin(s, e, r, k);
      if Promotes(s, e) {
        assert PlainStage(bases, s.looking[e.id]);
        PlainFinal(bases, s.looking[e.id]);
      }
    }
    forall k | k in t.l2 ensures Unreachable(bases, k, t.l2[k].entry) {
      SharedOrigin(s, e, k);
    }
    forall i | i in t.inFlight ensures Unreachable(bases, t.inFlight[i].key, t.inFlight[i].entry) {
      FlightOrigin(s, e, i);
    }
    forall i | i in t.looking ensures PlainStage(bases, t.looking[i]) {
      LookingOrigin(s, e, i);
      if i in s.looking { assert PlainStage(bases, s.looking[i]); }
      if e.Look? && e.replica in s.l1 && e.req.baseKey in s.l1[e.replica] {
        assert Unreachable(bases, e.req.baseKey, s.l1[e.replica][e.req.baseKey]);
      }
    }
  }

  lemma {:induction false} NamedRun(bases: set<string>, events: seq<Event>)
    requires AllApart(bases, events)
    ensures NamedInv(bases, Run(events))
  {
    if events != [] {
      NamedRun(bases, events[..|events| - 1]);
      NamedStep(bases, Run(events[..|events| - 1]), events[|events| - 1]);
    }
  }

  /**
   In every run in which no stored extended key equals a base key that a lookup starts from, a
   response that names Vary headers is never found again: every hit has an empty Vary list, and was
   stored under exactly the base key of the request it answers.
   */
  lemma NamedVaryIsNeverServed(bases: set<string>, events: seq<Event>, e: Event)
    requires AllApart(bases, events) && Apart(bases, e) && Serves(Run(events), e).Some?
    ensures var s := Run(events); var hit := Serves(s, e).value;
            hit.entry.cached.vary == [] && hit.entry.origin < |s.log| && s.log[hit.entry.origin].key == hit.req.baseKey
  {
    NamedRun(bases, events);
    RunInvariant(events);
    var s := Run(events);
    var look := s.looking[e.id];
    assert PlainStage(bases, look) && StageOk(s, look);
    if look.stage.ReadLocal? {
      var entry := LocalTier(s, look.replica)[look.req.baseKey];
      assert Unreachable(bases, look.req.baseKey, entry) && LocalOk(s, look.replica, look.req.baseKey, entry);
    }
  }

  /** The run stores nothing but this response to this request, and looks up nothing but `other`. */
  ghost predicate OnlyThese(events: seq<Event>, req: Request, response: Response, other: Request)
  {
    forall k | 0 <= k < |events| :: OnlyThis(events[k], req, response, other)
  }

  ghost predicate OnlyThis(e: Event, req: Request, response: Response, other: Request)
  {
    (e.Store? ==> e.req == req && e.response == response) && (e.Look? ==> e.req == other)
  }

  ghost predicate NamedHit(events: seq<Event>, e: Event)
  {
    Serves(Run(events), e).Some? && Serves(Run(events), e).value.entry.cached.vary != []
  }

  /** Keys that collide: the entry is found under what another request takes for its base key. */
  lemma CollidingKeyIsServed(cfg: Config, req: Request, response: Response, other: Request)
    returns (events: seq<Event>, e: Event)
    requires Storable(Some(cfg), response) && !IsPrivate(response) && response.vary.value != []
    requires ResolveTtl(response.cacheControl, cfg.ttl).value >= 1
    requires other.cacheable && WithVary(req, response.vary.value) == other.baseKey
    ensures OnlyThese(events, req, response, other) && e.Resume? && NamedHit(events, e)
  {
    var rec := Record(0, 0, response, cfg.ttl, other.baseKey);
    events := StoreThenArrive(cfg, req, response, 0);
    var look := Look(0, 1, Some(cfg), other);
    RunAppend(events, look);
    OtherReplicaAsks(Run(events), cfg, other);
    events := events + [look];
    RunAppend(events, RedisReads(0, true));
    events := events + [RedisReads(0, true)];
    var found := Found(EntryOf(rec, 0), 0, 0);
    assert Run(events).looking[0].stage == BaseReply(Some(found));
    assert |WithVary(other, response.vary.value)| > |other.baseKey|;
    RunAppend(events, Resume(0));
    events := events + [Resume(0)];
    assert Run(events).looking[0].stage == AskVary(found);
    RunAppend(events, RedisReads(0, true));
    events := events + [RedisReads(0, true)];
    e := Resume(0);
  }

  /** A response, and the request it answers. */
  datatype Exchange = Exchange(req: Request, response: Response)

  /** The run stores only these exchanges and looks up only these requests, any number of times in any order. */
  ghost predicate DrawnFrom(events: seq<Event>, stored: seq<Exchange>, looked: seq<Request>)
  {
    forall k | 0 <= k < |events| :: IsDrawn(events[k], stored, looked)
  }

  ghost predicate IsDrawn(e: Event, stored: seq<Exchange>, looked: seq<Request>)
  {
    && (e.Store? ==> exists i | 0 <= i < |stored| :: e.req == stored[i].req && e.response == stored[i].response)
    && (e.Look? ==> exists j | 0 <= j < |looked| :: e.req == looked[j])
  }

  /** Every response may be shared and lives for a second at least. */
  ghost predicate Shareable(cfg: Config, stored: seq<Exchange>)
  {
    forall i | 0 <= i < |stored| ::
      && Storable(Some(cfg), stored[i].response) && !IsPrivate(stored[i].response)
      && ResolveTtl(stored[i].response.cacheControl, cfg.ttl).value >= 1
  }

  /** The i-th exchange is stored under an extended key that is the base key of the j-th lookup. */
  predicate Collide(stored: seq<Exchange>, looked: seq<Request>, i: nat, j: nat)
  {
    && i < |stored| && j < |looked|
    && stored[i].response.vary.Some? && stored[i].response.vary.value != []
    && WithVary(stored[i].req, stored[i].response.vary.value) == looked[j].baseKey
  }

  function BaseKeys(looked: seq<Request>): set<string>
  {
    set j: nat | j < |looked| :: looked[j].baseKey
  }

  lemma DrawnIsApart(e: Event, stored: seq<Exchange>, looked: seq<Request>)
    requires IsDrawn(e, stored, looked) && forall i: nat, j: nat :: !Collide(stored, looked, i, j)
    ensures Apart(BaseKeys(looked), e)
  {
    if e.Store? && e.response.vary.Some? && e.response.vary.value != [] {
      var i :| 0 <= i < |stored| && e.req == stored[i].req && e.response == stored[i].response;
      forall j: nat | j < |looked| ensures looked[j].baseKey != WithVary(e.req, e.response.vary.value) {
        assert !Collide(stored, looked, i, j);
      }
    }
  }

  /**
   Exactly when a response that names Vary headers can be served, over all traffic: whatever exchanges
   are stored and whatever requests are looked up, some run of them returns such a response if and only
   if some extended key among the stored is some base key among the looked up. The response returned
   need not be the one whose key collides.
   */
  lemma NamedVaryServedIff(cfg: Config, stored: seq<Exchange>, looked: seq<Request>)
    requires Shareable(cfg, stored) && forall j | 0 <= j < |looked| :: looked[j].cacheable
    ensures (exists events, e :: DrawnFrom(events, stored, looked) && IsDrawn(e, stored, looked) && NamedHit(events, e))
            <==> exists i: nat, j: nat :: Collide(stored, looked, i, j)
  {
    if i: nat, j: nat :| Collide(stored, looked, i, j) {
      var events, e := CollidingKeyIsServed(cfg, stored[i].req, stored[i].response, looked[j]);
      forall k | 0 <= k < |events| ensures IsDrawn(events[k], stored, looked) {
        assert OnlyThis(events[k], stored[i].req, stored[i].response, looked[j]);
      }
      assert DrawnFrom(events, stored, looked) && IsDrawn(e, stored, looked) && NamedHit(events, e);
    } else {
      forall events, e | DrawnFrom(events, stored, looked) && IsDrawn(e, stored, looked) ensures !NamedHit(events, e) {
        if NamedHit(events, e) {
          forall k | 0 <= k < |events| ensures Apart(BaseKeys(looked), events[k]) {
            DrawnIsApart(events[k], stored, looked);
          }
          DrawnIsApart(e, stored, looked);
          NamedVaryIsNeverServed(BaseKeys(looked), events, e);
        }
      }
    }
  }
}
