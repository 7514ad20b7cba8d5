/** The real-time journal of one group (common/realtime.py) and the reconnecting
    consumer (common/consumers.py), with publishers and clients interleaved at
    every access to the cache and to the channel layer. */
module Realtime {
  import opened Wrappers

  const BACKLOG_SIZE: nat := 50
  const BACKLOG_TTL_SECONDS: nat := 900

  // ------------------------------------------------------------------- the cache

  /** One published event. `epoch` and `pub` are history: which life of the
      counter gave the number, and which publication asked for it. */
  datatype Ev = Ev(epoch: nat, num: nat, pub: nat)

  datatype Counter = Counter(value: nat, expiry: nat)

  datatype Entry = Entry(ev: Ev, expiry: nat)

  /** `epochs` counts how many times the counter key was created. */
  datatype Cache = Cache(now: nat, counter: Option<Counter>, epochs: nat, journal: map<nat, Entry>)

  predicate Alive(c: Cache) {
    c.counter.Some? && c.now < c.counter.value.expiry
  }

  function Created(c: Cache, value: nat): Cache {
    c.(counter := Some(Counter(value, c.now + BACKLOG_TTL_SECONDS)), epochs := c.epochs + 1)
  }

  /** `cache.add(key, 0)`: creates the counter unless it is there. */
  function AddCounter(c: Cache): Cache {
    if Alive(c) then c else Created(c, 0)
  }

  /** `cache.incr(key)`: the time to live stays what it was. */
  function Incremented(c: Cache): Cache
    requires Alive(c)
  {
    c.(counter := Some(c.counter.value.(value := c.counter.value.value + 1)))
  }

  function Put(c: Cache, ev: Ev): Cache {
    c.(journal := c.journal[ev.num := Entry(ev, c.now + BACKLOG_TTL_SECONDS)])
  }

  function LastSeq(c: Cache): nat {
    if Alive(c) then c.counter.value.value else 0
  }

  predicate Present(c: Cache, k: int) {
    0 <= k && k in c.journal && c.now < c.journal[k].expiry
  }

  function Max(a: int, b: int): int {
    if a < b then b else a
  }

  /** The first number `replay` asks for. */
  function First(since: int, last: nat): nat {
    Max(Max(since + 1, last - BACKLOG_SIZE + 1), 1)
  }

  /** The events found under the numbers `lo..hi`, in order. */
  function Found(c: Cache, lo: nat, hi: nat): seq<Ev>
    decreases hi + 1 - lo
  {
    if lo > hi then []
    else (if Present(c, lo) then [c.journal[lo].ev] else []) + Found(c, lo + 1, hi)
  }

  function Missed(c: Cache, since: int, last: nat): seq<Ev> {
    Found(c, First(since, last), last)
  }

  datatype Gap = Gap(from: int, next: nat)

  function GapSignal(since: int, missed: seq<Ev>): Option<Gap> {
    if missed != [] && missed[0].num > since + 1 then Some(Gap(since, missed[0].num)) else None
  }

  /** What is written lives for nine hundred seconds from then, the counter and the
      entries of the journal alike, and not one more. */
  lemma KeysLiveFifteenMinutes(c: Cache, ev: Ev, value: nat, later: nat)
    ensures Present(Put(c, ev).(now := later), ev.num) <==> later < c.now + 900
    ensures Alive(Created(c, value).(now := later)) <==> later < c.now + 900
    ensures Found(Put(c, ev).(now := later), ev.num, ev.num) == if later < c.now + 900 then [ev] else []
  {
    assert Found(Put(c, ev).(now := later), ev.num + 1, ev.num) == [];
  }

  // --------------------------------------------------------- publishers and clients

  datatype Phase =
    | Added
    | Missing
    | Numbered(ev: Ev)
    | Stored(ev: Ev)
    | Done(ev: Ev)

  datatype Stage =
    | Joined
    | Counted(last: nat)
    | CaughtUp(last: nat)
    | FirstVisit

  /** What reaches the client: the gap signal, the replayed events, then the live
      ones (its channel holds them back until `connect` is over). */
  datatype Client = Client(since: Option<int>, joinedAt: nat, stage: Stage, gap: Option<Gap>, replayed: seq<Ev>, live: seq<Ev>)

  /** `numbered` and `sent` are history: every number given, every broadcast. */
  datatype Sys = Sys(cache: Cache, pubs: map<nat, Phase>, clients: map<nat, Client>, numbered: seq<Ev>, sent: seq<Ev>)

  datatype Action =
    | Tick(seconds: nat)
    | Add(p: nat)
    | Incr(p: nat)
    | Restart(p: nat)
    | Store(p: nat)
    | Send(p: nat)
    | Join(c: nat, since: Option<int>)
    | ReadCounter(c: nat)
    | ReadJournal(c: nat)
    | Leave(c: nat)

  function WithNumber(s: Sys, p: nat, cache: Cache): Sys
    requires cache.counter.Some?
  {
    var ev := Ev(cache.epochs, cache.counter.value.value, p);
    s.(cache := cache, pubs := s.pubs[p := Numbered(ev)], numbered := s.numbered + [ev])
  }

  function Heard(c: Client, ev: Ev): Client {
    c.(live := c.live + [ev])
  }

  function Fire(s: Sys, a: Action): Sys {
    match a
    case Tick(d) => s.(cache := s.cache.(now := s.cache.now + d))
    case Add(p) =>
      if p in s.pubs then s else s.(cache := AddCounter(s.cache), pubs := s.pubs[p := Added])
    case Incr(p) =>
      if p !in s.pubs || !s.pubs[p].Added? then s
      else if Alive(s.cache) then WithNumber(s, p, Incremented(s.cache))
      else s.(pubs := s.pubs[p := Missing])
    case Restart(p) =>
      if p !in s.pubs || !s.pubs[p].Missing? then s else WithNumber(s, p, Created(s.cache, 1))
    case Store(p) =>
      if p !in s.pubs || !s.pubs[p].Numbered? then s
      else s.(cache := Put(s.cache, s.pubs[p].ev), pubs := s.pubs[p := Stored(s.pubs[p].ev)])
    case Send(p) =>
      if p !in s.pubs || !s.pubs[p].Stored? then s
      else
        var ev := s.pubs[p].ev;
        s.(pubs := s.pubs[p := Done(ev)], sent := s.sent + [ev],
           clients := map c | c in s.clients :: Heard(s.clients[c], ev))
    case Join(c, since) =>
      if c in s.clients then s
      else s.(clients := s.clients[c := Client(since, |s.sent|, if since.Some? then Joined else FirstVisit, None, [], [])])
    case ReadCounter(c) =>
      if c !in s.clients || !s.clients[c].stage.Joined? then s
      else s.(clients := s.clients[c := s.clients[c].(stage := Counted(LastSeq(s.cache)))])
    case ReadJournal(c) =>
      if c !in s.clients || !s.clients[c].stage.Counted? || s.clients[c].since.None? then s
      else
        var k := s.clients[c];
        var missed := Missed(s.cache, k.since.value, k.stage.last);
        s.(clients := s.clients[c := k.(stage := CaughtUp(k.stage.last), gap := GapSignal(k.since.value, missed), replayed := missed)])
    case Leave(c) => s.(clients := s.clients - {c})
  }

  function FireAll(s: Sys, actions: seq<Action>): Sys {
    if actions == [] then s else Fire(FireAll(s, actions[..|actions| - 1]), actions[|actions| - 1])
  }

  function Silent(now: nat): Sys {
    Sys(Cache(now, None, 0, map[]), map[], map[], [], [])
  }

  // ------------------------------------------------------------- what a replay holds

  lemma {:induction false} FoundMembers(c: Cache, lo: nat, hi: nat, ev: Ev)
    ensures ev in Found(c, lo, hi) <==> exists k: nat :: lo <= k <= hi && Present(c, k) && c.journal[k].ev == ev
    decreases hi + 1 - lo
  {
    if lo <= hi {
      FoundMembers(c, lo + 1, hi, ev);
      assert (exists k: nat :: lo <= k <= hi && Present(c, k) && c.journal[k].ev == ev)
        <==> (Present(c, lo) && c.journal[lo].ev == ev) || (exists k: nat :: lo + 1 <= k <= hi && Present(c, k) && c.journal[k].ev == ev);
    }
  }

  ghost predicate KeysMatch(c: Cache) {
    forall k :: k in c.journal ==> c.journal[k].ev.num == k
  }

  predicate Rising(evs: seq<Ev>) {
    forall i, j :: 0 <= i < j < |evs| ==> evs[i].num < evs[j].num
  }

  predicate Within(evs: seq<Ev>, lo: nat, hi: nat) {
    forall i :: 0 <= i < |evs| ==> lo <= evs[i].num <= hi
  }

  lemma {:induction false} FoundRises(c: Cache, lo: nat, hi: nat)
    requires KeysMatch(c)
    ensures Within(Found(c, lo, hi), lo, hi) && Rising(Found(c, lo, hi))
    decreases hi + 1 - lo
  {
    if lo <= hi {
      FoundRises(c, lo + 1, hi);
      if Present(c, lo) {
        PrependRises(c.journal[lo].ev, Found(c, lo + 1, hi), lo, hi);
      }
    }
  }

  lemma PrependRises(ev: Ev, rest: seq<Ev>, lo: nat, hi: nat)
    requires Within(rest, lo + 1, hi) && Rising(rest) && ev.num == lo <= hi
    ensures Within([ev] + rest, lo, hi) && Rising([ev] + rest)
  {
  }

  /** The first event found is the first number present. */
  lemma {:induction false} FoundFirst(c: Cache, lo: nat, hi: nat)
    requires KeysMatch(c)
    ensures Found(c, lo, hi) == [] ==> forall k :: lo <= k <= hi ==> !Present(c, k)
    ensures Found(c, lo, hi) != [] ==>
              var first := Found(c, lo, hi)[0].num;
              lo <= first <= hi && Present(c, first) && forall k :: lo <= k < first ==> !Present(c, k)
    decreases hi + 1 - lo
  {
    if lo <= hi && !Present(c, lo) {
      FoundFirst(c, lo + 1, hi);
    }
  }

  // ---------------------------------------------------------- what every run keeps

  predicate Issued(ph: Phase) {
    ph.Numbered? || ph.Stored? || ph.Done?
  }

  /** The counter's current life has given exactly the numbers 1 to its value. */
  ghost predicate CounterKept(s: Sys) {
    && (s.cache.counter.None? <==> s.cache.epochs == 0)
    && (s.cache.counter.Some? ==> s.cache.counter.value.expiry <= s.cache.now + BACKLOG_TTL_SECONDS)
    && (forall ev :: ev in s.numbered ==> 1 <= ev.epoch <= s.cache.epochs && 1 <= ev.num)
    && (s.cache.counter.Some? ==> forall ev :: ev in s.numbered && ev.epoch == s.cache.epochs ==> ev.num <= s.cache.counter.value.value)
  }

  ghost predicate NumbersDistinct(numbered: seq<Ev>) {
    forall i, j :: 0 <= i < j < |numbered| ==> numbered[i].epoch != numbered[j].epoch || numbered[i].num != numbered[j].num
  }

  ghost predicate Given(numbered: seq<Ev>, epoch: nat, num: nat) {
    exists i :: 0 <= i < |numbered| && numbered[i].epoch == epoch && numbered[i].num == num
  }

  /** Every life of the counter gives 1, 2, 3 and so on, skipping nothing. */
  ghost predicate LivesBeginAtOne(s: Sys) {
    && (forall i :: 0 <= i < |s.numbered| ==> Given(s.numbered, s.numbered[i].epoch, 1))
    && (s.cache.counter.Some? ==> forall k :: 1 <= k <= s.cache.counter.value.value ==> Given(s.numbered, s.cache.epochs, k))
  }

  ghost predicate PublishersKept(s: Sys) {
    && (forall p :: p in s.pubs && Issued(s.pubs[p]) ==> s.pubs[p].ev in s.numbered && s.pubs[p].ev.pub == p)
    && (forall ev :: ev in s.numbered ==> ev.pub in s.pubs && Issued(s.pubs[ev.pub]) && s.pubs[ev.pub].ev == ev)
  }

  ghost predicate SentKept(s: Sys) {
    && (forall ev :: ev in s.sent ==> ev.pub in s.pubs && s.pubs[ev.pub] == Done(ev))
    && (forall i, j :: 0 <= i < j < |s.sent| ==> s.sent[i] != s.sent[j])
  }

  ghost predicate JournalKept(s: Sys) {
    KeysMatch(s.cache) && forall k :: k in s.cache.journal ==> s.cache.journal[k].ev in s.numbered
  }

  ghost predicate ClientsKept(s: Sys) {
    forall c :: c in s.clients ==> s.clients[c].joinedAt <= |s.sent| && s.clients[c].live == s.sent[s.clients[c].joinedAt..]
  }

  ghost predicate Inv(s: Sys) {
    && CounterKept(s)
    && NumbersDistinct(s.numbered)
    && LivesBeginAtOne(s)
    && PublishersKept(s)
    && SentKept(s)
    && JournalKept(s)
    && ClientsKept(s)
  }

  lemma NumberKeepsCounter(s: Sys, p: nat, cache: Cache)
    requires CounterKept(s)
    requires (Alive(s.cache) && cache == Incremented(s.cache)) || cache == Created(s.cache, 1)
    ensures CounterKept(WithNumber(s, p, cache))
  {
  }

  lemma NumberKeepsDistinct(s: Sys, p: nat, cache: Cache)
    requires CounterKept(s) && NumbersDistinct(s.numbered)
    requires (Alive(s.cache) && cache == Incremented(s.cache)) || cache == Created(s.cache, 1)
    ensures NumbersDistinct(WithNumber(s, p, cache).numbered)
  {
    forall i | 0 <= i < |s.numbered|
      ensures s.numbered[i].epoch != cache.epochs || s.numbered[i].num != cache.counter.value.value
    {
      assert s.numbered[i] in s.numbered;
    }
  }

  lemma GivenAppend(numbered: seq<Ev>, ev: Ev, epoch: nat, num: nat)
    requires Given(numbered, epoch, num) || (ev.epoch == epoch && ev.num == num)
    ensures Given(numbered + [ev], epoch, num)
  {
    var all := numbered + [ev];
    if Given(numbered, epoch, num) {
      var i :| 0 <= i < |numbered| && numbered[i].epoch == epoch && numbered[i].num == num;
      assert all[i] == numbered[i];
    } else {
      assert all[|numbered|] == ev;
    }
  }

  lemma NumberKeepsBeginnings(s: Sys, p: nat, cache: Cache)
    requires LivesBeginAtOne(s)
    requires (Alive(s.cache) && cache == Incremented(s.cache)) || cache == Created(s.cache, 1)
    ensures LivesBeginAtOne(WithNumber(s, p, cache))
  {
    var t := WithNumber(s, p, cache);
    var ev := t.numbered[|s.numbered|];
    forall k: nat | 1 <= k <= cache.counter.value.value ensures Given(t.numbered, cache.epochs, k) {
      GivenAppend(s.numbered, ev, cache.epochs, k);
    }
    forall i | 0 <= i < |t.numbered| ensures Given(t.numbered, t.numbered[i].epoch, 1) {
      GivenAppend(s.numbered, ev, t.numbered[i].epoch, 1);
    }
  }

  lemma NumberKeepsPublishers(s: Sys, p: nat, cache: Cache)
    requires PublishersKept(s) && p in s.pubs && !Issued(s.pubs[p]) && cache.counter.Some?
    ensures PublishersKept(WithNumber(s, p, cache))
  {
    var t := WithNumber(s, p, cache);
    var ev := t.numbered[|s.numbered|];
    assert forall x :: x in t.numbered <==> x in s.numbered || x == ev;
    forall x | x in t.numbered ensures x.pub in t.pubs && Issued(t.pubs[x.pub]) && t.pubs[x.pub].ev == x {
      if x in s.numbered {
        assert x.pub != p;
      }
    }
  }

  lemma NumberKeepsInv(s: Sys, p: nat, cache: Cache)
    requires Inv(s) && p in s.pubs && !Issued(s.pubs[p])
    requires (Alive(s.cache) && cache == Incremented(s.cache)) || cache == Created(s.cache, 1)
    ensures Inv(WithNumber(s, p, cache))
  {
    NumberKeepsCounter(s, p, cache);
    NumberKeepsDistinct(s, p, cache);
    NumberKeepsBeginnings(s, p, cache);
    NumberKeepsPublishers(s, p, cache);
  }

  lemma SendKeepsSent(s: Sys, p: nat, ev: Ev, t: Sys)
    requires SentKept(s) && p in s.pubs && s.pubs[p] == Stored(ev) && ev.pub == p
    requires t.sent == s.sent + [ev] && t.pubs == s.pubs[p := Done(ev)]
    ensures SentKept(t)
  {
    assert forall x :: x in t.sent <==> x in s.sent || x == ev;
    assert forall x :: x in s.sent ==> x.pub != p;
    assert forall i :: 0 <= i < |s.sent| ==> s.sent[i] in s.sent;
  }

  lemma SendKeepsPublishers(s: Sys, p: nat, ev: Ev, t: Sys)
    requires PublishersKept(s) && p in s.pubs && s.pubs[p] == Stored(ev)
    requires t.numbered == s.numbered && t.pubs == s.pubs[p := Done(ev)]
    ensures PublishersKept(t)
  {
  }

  lemma SendKeepsInv(s: Sys, p: nat)
    requires Inv(s)
    ensures Inv(Fire(s, Send(p)))
  {
    var t := Fire(s, Send(p));
    if p in s.pubs && s.pubs[p].Stored? {
      SendKeepsSent(s, p, s.pubs[p].ev, t);
      SendKeepsPublishers(s, p, s.pubs[p].ev, t);
      forall c | c in t.clients
        ensures t.clients[c].joinedAt <= |t.sent| && t.clients[c].live == t.sent[t.clients[c].joinedAt..]
      {
        assert s.clients[c].live == s.sent[s.clients[c].joinedAt..];
      }
    }
  }

  lemma StoreKeepsInv(s: Sys, p: nat)
    requires Inv(s)
    ensures Inv(Fire(s, Store(p)))
  {
    var t := Fire(s, Store(p));
    if p in s.pubs && s.pubs[p].Numbered? {
      assert s.pubs[p].ev in s.numbered;
      assert PublishersKept(t) && SentKept(t);
    }
  }

  lemma AddKeepsInv(s: Sys, p: nat)
    requires Inv(s)
    ensures Inv(Fire(s, Add(p)))
  {
    if p !in s.pubs { PhaseKeepsPublishers(s, Fire(s, Add(p)), p); }
  }

  lemma MissingKeepsInv(s: Sys, p: nat)
    requires Inv(s) && p in s.pubs && s.pubs[p].Added? && !Alive(s.cache)
    ensures Inv(Fire(s, Incr(p)))
  {
    PhaseKeepsPublishers(s, Fire(s, Incr(p)), p);
  }

  /** Only a publisher without a number moves, and it still has none. */
  lemma PhaseKeepsPublishers(s: Sys, t: Sys, p: nat)
    requires PublishersKept(s) && SentKept(s) && t.numbered == s.numbered && t.sent == s.sent
    requires p in t.pubs && t.pubs == s.pubs[p := t.pubs[p]] && !Issued(t.pubs[p]) && (p in s.pubs ==> !Issued(s.pubs[p]))
    ensures PublishersKept(t) && SentKept(t)
  {
  }

  lemma TimeKeepsInv(s: Sys, a: Action)
    requires Inv(s) && a.Tick?
    ensures Inv(Fire(s, a))
  {
  }

  lemma ClientStepKeepsInv(s: Sys, a: Action)
    requires Inv(s) && (a.Join? || a.ReadCounter? || a.ReadJournal? || a.Leave?)
    ensures Inv(Fire(s, a))
  {
    ClientStepKeepsClients(s, a);
    assert Fire(s, a) == s.(clients := Fire(s, a).clients);
  }

  lemma ClientStepKeepsClients(s: Sys, a: Action)
    requires ClientsKept(s) && (a.Join? || a.ReadCounter? || a.ReadJournal? || a.Leave?)
    ensures ClientsKept(Fire(s, a))
  {
    var t := Fire(s, a);
    forall c | c in t.clients
      ensures t.clients[c].joinedAt <= |t.sent| && t.clients[c].live == t.sent[t.clients[c].joinedAt..]
    {
      if c in s.clients { assert s.clients[c].live == s.sent[s.clients[c].joinedAt..]; }
    }
  }

  lemma FireKeepsInv(s: Sys, a: Action)
    requires Inv(s)
    ensures Inv(Fire(s, a))
  {
    match a
    case Incr(p) =>
      if p in s.pubs && s.pubs[p].Added? && Alive(s.cache) {
        NumberKeepsInv(s, p, Incremented(s.cache));
      } else if p in s.pubs && s.pubs[p].Added? {
        MissingKeepsInv(s, p);
      }
    case Restart(p) =>
      if p in s.pubs && s.pubs[p].Missing? {
        NumberKeepsInv(s, p, Created(s.cache, 1));
      }
    case Send(p) => SendKeepsInv(s, p);
    case Store(p) => StoreKeepsInv(s, p);
    case Add(p) => AddKeepsInv(s, p);
    case Tick(_) => TimeKeepsInv(s, a);
    case _ => ClientStepKeepsInv(s, a);
  }

  lemma {:induction false} RunKeepsInv(now: nat, actions: seq<Action>)
    ensures Inv(FireAll(Silent(now), actions))
  {
    if actions != [] {
      RunKeepsInv(now, actions[..|actions| - 1]);
      FireKeepsInv(FireAll(Silent(now), actions[..|actions| - 1]), actions[|actions| - 1]);
    }
  }

  // ----------------------------------------------------------------- number reuse

  ghost predicate Reused(numbered: seq<Ev>) {
    exists i, j :: 0 <= i < j < |numbered| && numbered[i].num == numbered[j].num
  }

  ghost predicate OneLife(numbered: seq<Ev>) {
    forall i, j :: 0 <= i < j < |numbered| ==> numbered[i].epoch == numbered[j].epoch
  }

  lemma TwoLivesReuseOne(numbered: seq<Ev>, i: nat, j: nat)
    requires i < |numbered| && j < |numbered| && numbered[i].epoch != numbered[j].epoch
    requires Given(numbered, numbered[i].epoch, 1) && Given(numbered, numbered[j].epoch, 1)
    ensures Reused(numbered)
  {
    var k :| 0 <= k < |numbered| && numbered[k].epoch == numbered[i].epoch && numbered[k].num == 1;
    var l :| 0 <= l < |numbered| && numbered[l].epoch == numbered[j].epoch && numbered[l].num == 1;
    if k < l {
      assert numbered[k].num == numbered[l].num;
    } else {
      assert l < k && numbered[l].num == numbered[k].num;
    }
  }

  lemma ReuseNeedsTwoLives(numbered: seq<Ev>)
    requires NumbersDistinct(numbered) && OneLife(numbered)
    ensures !Reused(numbered)
  {
  }

  /** "Never reused" holds exactly as long as all numbers come from one life of
      the counter key. */
  lemma ReusedIffCounterDied(now: nat, actions: seq<Action>)
    ensures var numbered := FireAll(Silent(now), actions).numbered;
            Reused(numbered) <==> !OneLife(numbered)
  {
    RunKeepsInv(now, actions);
    var s := FireAll(Silent(now), actions);
    if OneLife(s.numbered) {
      ReuseNeedsTwoLives(s.numbered);
    } else {
      var i, j :| 0 <= i < j < |s.numbered| && s.numbered[i].epoch != s.numbered[j].epoch;
      TwoLivesReuseOne(s.numbered, i, j);
    }
  }

  // ---------------------------------------------------------------- no lost event

  /** The counter key has not expired since the group's first publication. */
  predicate Young(s: Sys) {
    s.cache.epochs == 0 || (s.cache.epochs == 1 && Alive(s.cache))
  }

  predicate Journaled(s: Sys, ev: Ev) {
    ev.num in s.cache.journal && s.cache.journal[ev.num].ev == ev
    && s.cache.counter.Some? && s.cache.counter.value.expiry <= s.cache.journal[ev.num].expiry
  }

  predicate Kept(ph: Phase) {
    ph.Stored? || ph.Done?
  }

  /** What has been stored is in the journal, and outlives the counter. */
  ghost predicate StoredIsJournaled(s: Sys) {
    forall p :: p in s.pubs && Kept(s.pubs[p]) ==> Journaled(s, s.pubs[p].ev)
  }

  ghost predicate CountedAll(s: Sys, c: Client) {
    c.stage.Counted? || c.stage.CaughtUp? ==>
      && c.since.Some?
      && c.stage.last <= (if s.cache.counter.Some? then s.cache.counter.value.value else 0)
      && forall i :: 0 <= i < c.joinedAt && i < |s.sent| ==> s.sent[i].num <= c.stage.last
  }

  ghost predicate ReplayedAll(s: Sys, c: Client) {
    c.stage.CaughtUp? && c.since.Some? ==>
      && Within(c.replayed, First(c.since.value, c.stage.last), c.stage.last)
      && forall i :: 0 <= i < c.joinedAt && i < |s.sent| && First(c.since.value, c.stage.last) <= s.sent[i].num ==> s.sent[i] in c.replayed
  }

  ghost predicate ReplayedKnown(s: Sys, c: Client) {
    forall ev :: ev in c.replayed ==> ev in s.numbered
  }

  ghost predicate ClientServed(s: Sys, c: Client) {
    (c.stage.Joined? ==> c.since.Some?) && CountedAll(s, c) && ReplayedAll(s, c) && ReplayedKnown(s, c)
  }

  ghost predicate YoungInv(s: Sys) {
    StoredIsJournaled(s) && forall c :: c in s.clients ==> ClientServed(s, s.clients[c])
  }

  /** Youth is never regained. */
  lemma YouthIsLostOnce(s: Sys, a: Action)
    requires Young(Fire(s, a))
    ensures Young(s)
  {
  }

  lemma StoreKeepsYoung(s: Sys, p: nat)
    requires Inv(s) && YoungInv(s) && Young(s)
    ensures YoungInv(Fire(s, Store(p)))
  {
    var t := Fire(s, Store(p));
    if p in s.pubs && s.pubs[p].Numbered? {
      var ev := s.pubs[p].ev;
      assert ev in s.numbered;
      forall q | q in t.pubs && Kept(t.pubs[q]) ensures Journaled(t, t.pubs[q].ev) {
        if q != p {
          var other := s.pubs[q].ev;
          assert other in s.numbered && other.num != ev.num by {
            DifferentNumbers(s, ev, other);
          }
        }
      }
      forall c | c in t.clients ensures ClientServed(t, t.clients[c]) {
        assert ClientServed(s, s.clients[c]);
      }
    }
  }

  lemma DifferentNumbers(s: Sys, a: Ev, b: Ev)
    requires NumbersDistinct(s.numbered) && CounterKept(s) && s.cache.epochs <= 1
    requires a in s.numbered && b in s.numbered && a != b
    ensures a.num != b.num
  {
    var i :| 0 <= i < |s.numbered| && s.numbered[i] == a;
    var j :| 0 <= j < |s.numbered| && s.numbered[j] == b;
    assert i < j || j < i;
  }

  lemma SentIsBelowCounter(s: Sys, i: nat)
    requires Inv(s) && Young(s) && i < |s.sent|
    ensures s.sent[i].num <= LastSeq(s.cache) && Kept(s.pubs[s.sent[i].pub]) && s.pubs[s.sent[i].pub].ev == s.sent[i]
    ensures s.sent[i] in s.numbered
  {
    assert s.sent[i] in s.sent;
    assert Issued(s.pubs[s.sent[i].pub]);
  }

  lemma SendKeepsYoung(s: Sys, p: nat)
    requires Inv(s) && YoungInv(s) && Young(s)
    ensures YoungInv(Fire(s, Send(p)))
  {
    var t := Fire(s, Send(p));
    if p in s.pubs && s.pubs[p].Stored? {
      forall c | c in t.clients ensures ClientServed(t, t.clients[c]) {
        assert ClientServed(s, s.clients[c]);
        assert s.clients[c].joinedAt <= |s.sent|;
      }
    }
  }

  lemma ReadCounterKeepsYoung(s: Sys, c: nat)
    requires Inv(s) && YoungInv(s) && Young(s)
    ensures YoungInv(Fire(s, ReadCounter(c)))
  {
    var t := Fire(s, ReadCounter(c));
    if c in s.clients && s.clients[c].stage.Joined? {
      forall i: nat | i < |s.sent| ensures s.sent[i].num <= LastSeq(s.cache) {
        SentIsBelowCounter(s, i);
      }
      forall d | d in t.clients ensures ClientServed(t, t.clients[d]) {
        assert ClientServed(s, s.clients[d]);
      }
    }
  }

  lemma ReplayFindsSent(s: Sys, i: nat, since: int, last: nat)
    requires Inv(s) && YoungInv(s) && Young(s) && i < |s.sent| && First(since, last) <= s.sent[i].num <= last
    ensures s.sent[i] in Missed(s.cache, since, last)
  {
    SentIsBelowCounter(s, i);
    var k := s.sent[i].num;
    assert Journaled(s, s.sent[i]);
    assert Present(s.cache, k) && s.cache.journal[k].ev == s.sent[i];
    FoundMembers(s.cache, First(since, last), last, s.sent[i]);
  }

  lemma ReadJournalKeepsYoung(s: Sys, c: nat)
    requires Inv(s) && YoungInv(s) && Young(s)
    ensures YoungInv(Fire(s, ReadJournal(c)))
  {
    var t := Fire(s, ReadJournal(c));
    if c in s.clients && s.clients[c].stage.Counted? && s.clients[c].since.Some? {
      var k := s.clients[c];
      var since, last := k.since.value, k.stage.last;
      assert ClientServed(s, k);
      FoundRises(s.cache, First(since, last), last);
      forall i: nat | i < k.joinedAt && i < |s.sent| && First(since, last) <= s.sent[i].num
        ensures s.sent[i] in Missed(s.cache, since, last)
      {
        ReplayFindsSent(s, i, since, last);
      }
      forall ev | ev in Missed(s.cache, since, last) ensures ev in s.numbered {
        FoundMembers(s.cache, First(since, last), last, ev);
      }
      forall d | d in t.clients ensures ClientServed(t, t.clients[d]) {
        assert ClientServed(s, s.clients[d]);
      }
    }
  }

  /** Neither the journal nor the broadcasts nor the clients move. */
  lemma CounterStepKeepsYoung(s: Sys, t: Sys)
    requires YoungInv(s) && t.cache.journal == s.cache.journal && t.clients == s.clients && t.sent == s.sent
    requires s.numbered <= t.numbered
    requires s.cache.counter.Some? ==> t.cache.counter.Some? && t.cache.counter.value.expiry == s.cache.counter.value.expiry
    requires s.cache.counter.Some? ==> t.cache.counter.value.value >= s.cache.counter.value.value
    requires forall p :: p in t.pubs && Kept(t.pubs[p]) ==> p in s.pubs && s.pubs[p] == t.pubs[p]
    ensures YoungInv(t)
  {
    forall p | p in t.pubs && Kept(t.pubs[p]) ensures Journaled(t, t.pubs[p].ev) {
      assert Journaled(s, s.pubs[p].ev);
    }
    assert forall ev :: ev in s.numbered ==> ev in t.numbered;
    forall c | c in t.clients ensures ClientServed(t, t.clients[c]) {
      assert ClientServed(s, s.clients[c]);
    }
  }

  lemma JoinKeepsYoung(s: Sys, c: nat, since: Option<int>)
    requires YoungInv(s)
    ensures YoungInv(Fire(s, Join(c, since)))
  {
    var t := Fire(s, Join(c, since));
    forall p | p in t.pubs && Kept(t.pubs[p]) ensures Journaled(t, t.pubs[p].ev) {
      assert Journaled(s, s.pubs[p].ev);
    }
    forall d | d in t.clients ensures ClientServed(t, t.clients[d]) {
      if d in s.clients { assert ClientServed(s, s.clients[d]); }
    }
  }

  lemma LeaveKeepsYoung(s: Sys, c: nat)
    requires YoungInv(s)
    ensures YoungInv(Fire(s, Leave(c)))
  {
    var t := Fire(s, Leave(c));
    forall p | p in t.pubs && Kept(t.pubs[p]) ensures Journaled(t, t.pubs[p].ev) {
      assert Journaled(s, s.pubs[p].ev);
    }
    forall d | d in t.clients ensures ClientServed(t, t.clients[d]) {
      assert ClientServed(s, s.clients[d]);
    }
  }

  lemma FireKeepsYoung(s: Sys, a: Action)
    requires Inv(s) && YoungInv(s) && Young(s) && Young(Fire(s, a))
    ensures YoungInv(Fire(s, a))
  {
    match a
    case Store(p) => StoreKeepsYoung(s, p);
    case Send(p) => SendKeepsYoung(s, p);
    case ReadCounter(c) => ReadCounterKeepsYoung(s, c);
    case ReadJournal(c) => ReadJournalKeepsYoung(s, c);
    case Join(c, since) => JoinKeepsYoung(s, c, since);
    case Leave(c) => LeaveKeepsYoung(s, c);
    case _ => NumberingKeepsYoung(s, a);
  }

  lemma NumberingKeepsYoung(s: Sys, a: Action)
    requires CounterKept(s) && YoungInv(s) && Young(s) && Young(Fire(s, a)) && (a.Tick? || a.Add? || a.Incr? || a.Restart?)
    ensures YoungInv(Fire(s, a))
  {
    var t := Fire(s, a);
    if a.Incr? && a.p in s.pubs && s.pubs[a.p].Added? {
      assert forall p :: p in t.pubs && p != a.p ==> p in s.pubs && s.pubs[p] == t.pubs[p];
    }
    CounterStepKeepsYoung(s, t);
  }

  lemma {:induction false} YoungRuns(now: nat, actions: seq<Action>)
    requires Young(FireAll(Silent(now), actions))
    ensures YoungInv(FireAll(Silent(now), actions))
  {
    if actions != [] {
      var before := FireAll(Silent(now), actions[..|actions| - 1]);
      YouthIsLostOnce(before, actions[|actions| - 1]);
      YoungRuns(now, actions[..|actions| - 1]);
      RunKeepsInv(now, actions[..|actions| - 1]);
      FireKeepsYoung(before, actions[|actions| - 1]);
    }
  }

  /** For fifteen minutes from `start` on: no counter but the first one, which lives
      that long, and nobody has found it missing. */
  ghost predicate FirstCounter(s: Sys, start: int) {
    && start <= s.cache.now && s.cache.epochs <= 1 && (s.cache.epochs == 0 ==> s.cache.counter.None?)
    && (s.cache.epochs == 1 ==> s.cache.counter.Some? && start + 900 <= s.cache.counter.value.expiry)
    && (forall p :: p in s.pubs ==> !s.pubs[p].Missing? && (s.pubs[p].Added? ==> s.cache.epochs == 1))
  }

  lemma FireKeepsFirstCounter(s: Sys, a: Action, start: int)
    requires FirstCounter(s, start) && s.cache.now < start + 900
    ensures FirstCounter(Fire(s, a), start) && s.cache.now <= Fire(s, a).cache.now
  {
  }

  /** A group is young for fifteen minutes at least, whatever happens in it. */
  lemma {:induction false} YoungForFifteenMinutes(now: nat, actions: seq<Action>)
    requires FireAll(Silent(now), actions).cache.now < now + 900
    ensures FirstCounter(FireAll(Silent(now), actions), now) && Young(FireAll(Silent(now), actions))
  {
    if actions != [] {
      var init := actions[..|actions| - 1];
      TimeGoesOn(FireAll(Silent(now), init), actions[|actions| - 1]);
      YoungForFifteenMinutes(now, init);
      FireKeepsFirstCounter(FireAll(Silent(now), init), actions[|actions| - 1], now);
    }
  }

  lemma TimeGoesOn(s: Sys, a: Action)
    ensures s.cache.now <= Fire(s, a).cache.now
  {
  }

  predicate Received(c: Client, ev: Ev) {
    ev in c.replayed || ev in c.live
  }

  /** No lost event. As long as the counter key lives, a client that has caught up
      from `since` has every later event ever broadcast, except exactly those
      broadcast before it joined and more than fifty numbers behind the counter it
      read. Publishers and clients may be interleaved in any way. */
  lemma NoLostEvent(now: nat, actions: seq<Action>, c: nat, ev: Ev)
    requires var s := FireAll(Silent(now), actions);
             && Young(s) && c in s.clients && s.clients[c].stage.CaughtUp? && ev in s.sent
             && s.clients[c].since.Some? && s.clients[c].since.value < ev.num
    ensures var s := FireAll(Silent(now), actions);
            var k := s.clients[c];
            && k.joinedAt <= |s.sent|
            && (Received(k, ev) <==> !(ev in s.sent[..k.joinedAt] && ev.num <= k.stage.last - 50))
  {
    RunKeepsInv(now, actions);
    YoungRuns(now, actions);
    var s := FireAll(Silent(now), actions);
    ServedMeansReceived(s, s.clients[c], ev);
  }

  lemma ServedMeansReceived(s: Sys, k: Client, ev: Ev)
    requires ClientServed(s, k) && k.joinedAt <= |s.sent| && k.live == s.sent[k.joinedAt..] && k.stage.CaughtUp?
    requires SentKept(s) && PublishersKept(s) && CounterKept(s) && ev in s.sent && k.since.Some? && k.since.value < ev.num
    ensures Received(k, ev) <==> !(ev in s.sent[..k.joinedAt] && ev.num <= k.stage.last - 50)
  {
    var i :| 0 <= i < |s.sent| && s.sent[i] == ev;
    assert s.pubs[ev.pub] == Done(ev);
    assert ev in s.numbered;
    if i < k.joinedAt {
      assert s.sent[..k.joinedAt][i] == ev;
      assert ev !in k.live;
      assert ev.num <= k.stage.last;
    } else {
      assert k.live[i - k.joinedAt] == ev;
      assert ev !in s.sent[..k.joinedAt];
    }
  }

  /** An event seen twice, replayed and live, is the same event: one number means
      one event, so a client can drop what it has already seen. */
  lemma SameNumberSameEvent(now: nat, actions: seq<Action>, c: nat, a: Ev, b: Ev)
    requires var s := FireAll(Silent(now), actions);
             Young(s) && c in s.clients && Received(s.clients[c], a) && Received(s.clients[c], b)
    ensures a.num == b.num ==> a == b
  {
    RunKeepsInv(now, actions);
    YoungRuns(now, actions);
    var s := FireAll(Silent(now), actions);
    forall ev | Received(s.clients[c], ev) ensures ev in s.numbered {
      assert ClientServed(s, s.clients[c]);
      if ev in s.clients[c].live {
        assert ev in s.sent;
        assert Issued(s.pubs[ev.pub]);
      }
    }
    if a != b {
      DifferentNumbers(s, a, b);
    }
  }

  // ------------------------------------------------------------------ gap signals

  /** Nobody is between taking a number and writing it in the journal. */
  ghost predicate Quiescent(s: Sys) {
    forall p :: p in s.pubs ==> !s.pubs[p].Numbered?
  }

  lemma GivenNumber(s: Sys, k: nat) returns (ev: Ev)
    requires Inv(s) && Young(s) && 1 <= k <= LastSeq(s.cache)
    ensures ev in s.numbered && ev.num == k && ev.pub in s.pubs && Issued(s.pubs[ev.pub]) && s.pubs[ev.pub].ev == ev
  {
    assert Given(s.numbered, s.cache.epochs, k);
    var i :| 0 <= i < |s.numbered| && s.numbered[i].epoch == s.cache.epochs && s.numbered[i].num == k;
    ev := s.numbered[i];
    assert ev in s.numbered;
  }

  /** A number is absent from the journal only while its publisher holds it. */
  lemma AbsentMeansInFlight(s: Sys, k: nat)
    requires Inv(s) && YoungInv(s) && Young(s) && 1 <= k <= LastSeq(s.cache) && !Present(s.cache, k)
    ensures exists p :: p in s.pubs && s.pubs[p].Numbered? && s.pubs[p].ev.num == k
  {
    var ev := GivenNumber(s, k);
    assert Kept(s.pubs[ev.pub]) ==> Journaled(s, s.pubs[ev.pub].ev);
  }

  lemma {:induction false} FoundEverything(c: Cache, lo: nat, hi: nat)
    requires forall k :: lo <= k <= hi ==> Present(c, k)
    ensures |Found(c, lo, hi)| == if lo <= hi then hi + 1 - lo else 0
    ensures forall k :: lo <= k <= hi ==> k in c.journal && Found(c, lo, hi)[k - lo] == c.journal[k].ev
    decreases hi + 1 - lo
  {
    if lo <= hi {
      FoundEverything(c, lo + 1, hi);
      var rest := Found(c, lo + 1, hi);
      assert Present(c, lo) && Found(c, lo, hi) == [c.journal[lo].ev] + rest;
      forall k | lo + 1 <= k <= hi ensures k in c.journal && Found(c, lo, hi)[k - lo] == c.journal[k].ev {
        assert Found(c, lo, hi)[k - lo] == rest[k - (lo + 1)];
      }
    }
  }

  lemma QuietReplayIsWhole(s: Sys, since: int, last: nat)
    requires Inv(s) && YoungInv(s) && Young(s) && Quiescent(s) && last <= LastSeq(s.cache)
    ensures |Missed(s.cache, since, last)| == Max(last + 1 - First(since, last), 0)
    ensures forall i :: 0 <= i < |Missed(s.cache, since, last)| ==> Missed(s.cache, since, last)[i].num == First(since, last) + i
  {
    var first := First(since, last);
    forall k | first <= k <= last ensures Present(s.cache, k) {
      if !Present(s.cache, k) { AbsentMeansInFlight(s, k); }
    }
    FoundEverything(s.cache, first, last);
    forall i | 0 <= i < |Missed(s.cache, since, last)| ensures Missed(s.cache, since, last)[i].num == first + i {
      var k := first + i;
      assert Missed(s.cache, since, last)[k - first] == s.cache.journal[k].ev;
    }
  }

  /** In a quiescent state with a living counter the replay is the whole window,
      and a gap is signalled exactly when the client is more than fifty numbers
      behind, or asks from below zero while there is something to send. */
  lemma GapIffTooFarBehind(now: nat, actions: seq<Action>, c: nat)
    requires var s := FireAll(Silent(now), actions);
             && Young(s) && Quiescent(s) && c in s.clients && s.clients[c].stage.Counted? && s.clients[c].since.Some?
    ensures var s := FireAll(Silent(now), actions);
            var since, last, after := s.clients[c].since.value, s.clients[c].stage.last, Fire(s, ReadJournal(c)).clients[c];
            var first := Max(Max(since + 1, last - 49), 1);
            && |after.replayed| == Max(last + 1 - first, 0)
            && (forall i :: 0 <= i < |after.replayed| ==> after.replayed[i].num == first + i)
            && (after.gap.Some? <==> 1 <= last && since < last && (last - since > 50 || since < 0))
            && (0 <= since ==> (after.gap.Some? <==> last - since > 50))
  {
    RunKeepsInv(now, actions);
    YoungRuns(now, actions);
    GapOfAWholeWindow(FireAll(Silent(now), actions), c);
  }

  predicate HasCounted(s: Sys, c: nat) {
    c in s.clients && s.clients[c].stage.Counted? && s.clients[c].since.Some?
  }

  lemma JournalAnswers(s: Sys, c: nat)
    requires HasCounted(s, c)
    ensures var missed := Missed(s.cache, s.clients[c].since.value, s.clients[c].stage.last);
            && c in Fire(s, ReadJournal(c)).clients
            && Fire(s, ReadJournal(c)).clients[c].replayed == missed
            && Fire(s, ReadJournal(c)).clients[c].gap == GapSignal(s.clients[c].since.value, missed)
  {
  }

  lemma GapOfAWholeWindow(s: Sys, c: nat)
    requires Inv(s) && YoungInv(s) && Young(s) && Quiescent(s) && HasCounted(s, c)
    ensures c in Fire(s, ReadJournal(c)).clients
    ensures var since, last, after := s.clients[c].since.value, s.clients[c].stage.last, Fire(s, ReadJournal(c)).clients[c];
            && |after.replayed| == Max(last + 1 - First(since, last), 0)
            && (forall i :: 0 <= i < |after.replayed| ==> after.replayed[i].num == First(since, last) + i)
            && (after.gap.Some? <==> 1 <= last && since < last && (last - since > 50 || since < 0))
  {
    JournalAnswers(s, c);
    assert CountedAll(s, s.clients[c]) by { assert ClientServed(s, s.clients[c]); }
    QuietReplayIsWhole(s, s.clients[c].since.value, s.clients[c].stage.last);
  }

  /** The signal can fail to come with a real loss only when the fifty newest
      numbers are all still in their publishers' hands. */
  lemma SilentLossNeedsFiftyInFlight(now: nat, actions: seq<Action>, c: nat, ev: Ev, num: nat)
    requires var s := FireAll(Silent(now), actions);
             && Young(s) && c in s.clients && s.clients[c].stage.Counted? && s.clients[c].since.Some?
             && s.clients[c].since.value < ev.num <= s.clients[c].stage.last - 50
             && s.clients[c].stage.last - 50 < num <= s.clients[c].stage.last
             && Fire(s, ReadJournal(c)).clients[c].gap == None
    ensures var s := FireAll(Silent(now), actions);
            && Fire(s, ReadJournal(c)).clients[c].replayed == []
            && exists p :: p in s.pubs && s.pubs[p].Numbered? && s.pubs[p].ev.num == num
  {
    RunKeepsInv(now, actions);
    YoungRuns(now, actions);
    SilenceMeansNothingFound(FireAll(Silent(now), actions), c, ev.num, num);
    AbsentMeansInFlight(FireAll(Silent(now), actions), num);
  }

  lemma SilenceMeansNothingFound(s: Sys, c: nat, lost: nat, num: nat)
    requires Inv(s) && YoungInv(s) && HasCounted(s, c) && Fire(s, ReadJournal(c)).clients[c].gap == None
    requires s.clients[c].since.value < lost <= s.clients[c].stage.last - 50 < num <= s.clients[c].stage.last
    ensures Fire(s, ReadJournal(c)).clients[c].replayed == [] && !Present(s.cache, num)
    ensures 1 <= num && (Young(s) ==> num <= LastSeq(s.cache))
  {
    JournalAnswers(s, c);
    var since, last := s.clients[c].since.value, s.clients[c].stage.last;
    assert CountedAll(s, s.clients[c]) by { assert ClientServed(s, s.clients[c]); }
    FoundFirst(s.cache, First(since, last), last);
    FoundRises(s.cache, First(since, last), last);
  }

  // ------------------------------------------------------- after the counter expired

  /** One publication from start to end with nobody in between. */
  function Published(s: Sys, p: nat): Sys {
    Fire(Fire(Fire(Fire(s, Add(p)), Incr(p)), Store(p)), Send(p))
  }

  /** One reconnection from start to end with nobody in between. */
  function Reconnected(s: Sys, c: nat, since: int): Sys {
    Fire(Fire(Fire(s, Join(c, Some(since))), ReadCounter(c)), ReadJournal(c))
  }

  /** The methods and the interleaved steps tell one story: a publication that
      nobody interrupts writes what `Publish` writes. */
  lemma PublishIsItsSteps(s: Sys, p: nat)
    requires p !in s.pubs
    ensures var numbered := Incremented(AddCounter(s.cache));
            var ev := Ev(numbered.epochs, LastSeq(numbered), p);
            && Published(s, p).cache == Put(numbered, ev)
            && Published(s, p).sent == s.sent + [ev]
            && Published(s, p).clients.Keys == s.clients.Keys
  {
    var s1 := Fire(s, Add(p));
    assert Alive(s1.cache);
    var s2 := Fire(s1, Incr(p));
    assert s2.pubs[p].Numbered?;
  }

  /** A client that has nothing to ask for gets nothing, and no signal. */
  lemma UpToDateHearsNothing(s: Sys, c: nat, since: int)
    requires c !in s.clients && LastSeq(s.cache) <= since
    ensures Reconnected(s, c, since).clients[c] == Client(Some(since), |s.sent|, CaughtUp(LastSeq(s.cache)), None, [], [])
  {
    assert First(since, LastSeq(s.cache)) > LastSeq(s.cache);
  }

  /** Once the counter has expired, whatever happened before, numbering restarts at
      1, and a client that reconnects from any number it already had gets neither the
      event nor a gap signal: it is not told to reload. */
  lemma ExpiryIsSilent(s: Sys, p: nat, c: nat, since: int)
    requires !Alive(s.cache) && p !in s.pubs && c !in s.clients && 1 <= since
    ensures Published(s, p).sent == s.sent + [Ev(s.cache.epochs + 1, 1, p)]
    ensures LearnsNothing(Reconnected(Published(s, p), c, since), c, Ev(s.cache.epochs + 1, 1, p))
  {
    PublishIsItsSteps(s, p);
    UpToDateHearsNothing(Published(s, p), c, since);
  }

  predicate LearnsNothing(s: Sys, c: nat, ev: Ev) {
    c in s.clients && s.clients[c].stage.CaughtUp? && s.clients[c].gap == None && !Received(s.clients[c], ev)
  }

  /** Two publishers have a number; only the second has written and broadcast. */
  function OneWritten(p: nat, q: nat): Sys
    requires p != q
  {
    var a, b := Ev(1, 1, p), Ev(1, 2, q);
    Sys(Cache(0, Some(Counter(2, 900)), 1, map[2 := Entry(b, 900)]), map[p := Numbered(a), q := Done(b)], map[], [a, b], [b])
  }

  function SecondFirst(p: nat, q: nat): Sys {
    Fire(Fire(Fire(Fire(Fire(Fire(Silent(0), Add(p)), Incr(p)), Add(q)), Incr(q)), Store(q)), Send(q))
  }

  lemma TwoNumbersOneWritten(p: nat, q: nat)
    requires p != q
    ensures SecondFirst(p, q) == OneWritten(p, q)
  {
    FirstTakesOne(p);
    var a, b := Ev(1, 1, p), Ev(1, 2, q);
    var both := Fire(Fire(OneTaken(p), Add(q)), Incr(q));
    assert both == Sys(Cache(0, Some(Counter(2, 900)), 1, map[]), map[p := Numbered(a), q := Numbered(b)], map[], [a, b], []);
  }

  function OneTaken(p: nat): Sys {
    Sys(Cache(0, Some(Counter(1, 900)), 1, map[]), map[p := Numbered(Ev(1, 1, p))], map[], [Ev(1, 1, p)], [])
  }

  lemma FirstTakesOne(p: nat)
    ensures Fire(Fire(Silent(0), Add(p)), Incr(p)) == OneTaken(p)
  {
  }

  /** A gap can be announced though nothing is lost: a number taken but not yet
      written looks like a hole, and its event then arrives live. */
  lemma GapWithoutLoss(p: nat, q: nat, c: nat)
    requires p != q
    ensures FireAll(Silent(0), [Add(p), Incr(p), Add(q), Incr(q), Store(q), Send(q)]) == SecondFirst(p, q)
    ensures var s := Reconnected(SecondFirst(p, q), c, 0);
            && c in s.clients && s.clients[c].gap == Some(Gap(0, 2))
            && EverySentIsReceived(Fire(Fire(s, Store(p)), Send(p)), c, [Ev(1, 2, q), Ev(1, 1, p)])
  {
    SixSteps(Silent(0), Add(p), Incr(p), Add(q), Incr(q), Store(q), Send(q));
    TwoNumbersOneWritten(p, q);
    GapSeenFrom(p, q, c);
  }

  lemma FireMore(s: Sys, before: seq<Action>, a: Action)
    ensures FireAll(s, before + [a]) == Fire(FireAll(s, before), a)
  {
    assert (before + [a])[..|before|] == before;
  }

  lemma SixSteps(s: Sys, a: Action, b: Action, c: Action, d: Action, e: Action, f: Action)
    ensures FireAll(s, [a, b, c, d, e, f]) == Fire(Fire(Fire(Fire(Fire(Fire(s, a), b), c), d), e), f)
  {
    assert FireAll(s, []) == s;
    FireMore(s, [], a);
    FireMore(s, [a], b);
    FireMore(s, [a, b], c);
    FireMore(s, [a, b, c], d);
    FireMore(s, [a, b, c, d], e);
    FireMore(s, [a, b, c, d, e], f);
    assert [] + [a] == [a] && [a] + [b] == [a, b] && [a, b] + [c] == [a, b, c] && [a, b, c] + [d] == [a, b, c, d];
    assert [a, b, c, d] + [e] == [a, b, c, d, e] && [a, b, c, d, e] + [f] == [a, b, c, d, e, f];
  }

  /** A publisher that finds the counter gone between its two accesses writes a new one
      and takes its first number. */
  lemma RestartTakesOne(s: Sys, p: nat)
    requires p in s.pubs && s.pubs[p].Missing?
    ensures var t := Fire(s, Restart(p));
            && t.numbered == s.numbered + [Ev(s.cache.epochs + 1, 1, p)] && LastSeq(t.cache) == 1
            && p in t.pubs && t.pubs[p] == Numbered(Ev(s.cache.epochs + 1, 1, p))
    ensures Fire(s.(pubs := s.pubs[p := Added], cache := s.cache.(counter := None)), Incr(p)).pubs[p] == Missing
  {
  }

  predicate EverySentIsReceived(s: Sys, c: nat, sent: seq<Ev>) {
    s.sent == sent && c in s.clients && forall ev :: ev in sent ==> Received(s.clients[c], ev)
  }

  lemma GapSeenFrom(p: nat, q: nat, c: nat)
    requires p != q
    ensures var s := Reconnected(OneWritten(p, q), c, 0);
            && c in s.clients && s.clients[c].gap == Some(Gap(0, 2))
            && EverySentIsReceived(Fire(Fire(s, Store(p)), Send(p)), c, [Ev(1, 2, q), Ev(1, 1, p)])
  {
    var s, a, b := OneWritten(p, q), Ev(1, 1, p), Ev(1, 2, q);
    assert First(0, 2) == 1;
    assert Found(s.cache, 3, 2) == [];
    assert Found(s.cache, 2, 2) == [b];
    assert Found(s.cache, 1, 2) == [b];
    var joined := Reconnected(s, c, 0);
    assert joined.clients[c] == Client(Some(0), 1, CaughtUp(2), Some(Gap(0, 2)), [b], []);
    var end := Fire(Fire(joined, Store(p)), Send(p));
    assert end.clients[c].live == [a];
  }

  // ------------------------------------------------------------ the calls themselves

  datatype Message = GapFrom(from: int, next: nat) | Relayed(ev: Ev)

  function Relays(evs: seq<Ev>): (r: seq<Message>)
    ensures |r| == |evs| && forall i :: 0 <= i < |evs| ==> r[i] == Relayed(evs[i])
  {
    seq(|evs|, i requires 0 <= i < |evs| => Relayed(evs[i]))
  }

  /** What a consumer sends on connecting: the gap first, then what was missed. */
  function Opening(since: int, missed: seq<Ev>): seq<Message> {
    match GapSignal(since, missed)
    case None => Relays(missed)
    case Some(g) => [GapFrom(g.from, g.next)] + Relays(missed)
  }

  /** The gap comes first, if the first event missed is not the next one, and says which
      two numbers it lies between; then every missed event, in order. */
  lemma OpeningMeaning(since: int, missed: seq<Ev>)
    ensures var sent, gap := Opening(since, missed), missed != [] && missed[0].num != since + 1 && missed[0].num > since;
            && |sent| == |missed| + (if gap then 1 else 0)
            && (gap ==> sent[0] == GapFrom(since, missed[0].num))
            && forall i :: 0 <= i < |missed| ==> sent[if gap then i + 1 else i] == Relayed(missed[i])
  {
    var sent, relayed := Opening(since, missed), Relays(missed);
    if missed != [] && missed[0].num != since + 1 && missed[0].num > since {
      assert sent == [GapFrom(since, missed[0].num)] + relayed;
      forall i | 0 <= i < |missed| ensures sent[i + 1] == relayed[i] {
      }
    } else {
      assert sent == relayed;
    }
  }

  /** The cache keys of one group. */
  class RealtimeGroup {
    var now: nat
    var counter: Option<Counter>
    var epochs: nat
    var journal: map<nat, Entry>

    function State(): Cache
      reads this
    {
      Cache(now, counter, epochs, journal)
    }

    constructor (start: nat)
      ensures State() == Silent(start).cache
    {
      now, counter, epochs, journal := start, None, 0, map[];
    }

    /** Without interruption, the fallback of an expired counter is never taken. */
    method NextSeq() returns (value: nat)
      modifies this
      ensures State() == Incremented(AddCounter(old(State()))) && value == LastSeq(State())
      ensures value >= 1
    {
      if !(counter.Some? && now < counter.value.expiry) {
        counter, epochs := Some(Counter(0, now + BACKLOG_TTL_SECONDS)), epochs + 1;
      }
      value := counter.value.value + 1;
      counter := Some(counter.value.(value := value));
    }

    method Publish(p: nat) returns (ev: Ev)
      modifies this
      ensures var numbered := Incremented(AddCounter(old(State())));
              && ev == Ev(numbered.epochs, LastSeq(numbered), p)
              && State() == Put(numbered, ev)
    {
      var number := NextSeq();
      ev := Ev(epochs, number, p);
      journal := journal[number := Entry(ev, now + BACKLOG_TTL_SECONDS)];
    }

    method Replay(since: int) returns (missed: seq<Ev>)
      ensures missed == Missed(State(), since, LastSeq(State()))
    {
      var last := if counter.Some? && now < counter.value.expiry then counter.value.value else 0;
      var first := Max(Max(since + 1, last - BACKLOG_SIZE + 1), 1);
      missed := [];
      var k := first;
      while k <= last
        invariant first <= k
        invariant missed + Found(State(), k, last) == Found(State(), first, last)
        decreases last + 1 - k
      {
        ghost var rest := Found(State(), k + 1, last);
        if k in journal && now < journal[k].expiry {
          assert missed + ([journal[k].ev] + rest) == (missed + [journal[k].ev]) + rest;
          missed := missed + [journal[k].ev];
        }
        k := k + 1;
      }
    }
  }

  class Consumer {
    var inbox: seq<Message>

    constructor ()
      ensures inbox == []
    {
      inbox := [];
    }

    method CatchUp(group: RealtimeGroup, since: Option<int>)
      modifies this
      ensures since.None? ==> inbox == old(inbox)
      ensures since.Some? ==>
                inbox == old(inbox) + Opening(since.value, Missed(group.State(), since.value, LastSeq(group.State())))
    {
      if since.None? {
        return;
      }
      var missed := group.Replay(since.value);
      Open(since.value, missed);
    }

    method Open(since: int, missed: seq<Ev>)
      modifies this
      ensures inbox == old(inbox) + Opening(since, missed)
    {
      if missed == [] {
        return;
      }
      if missed[0].num > since + 1 {
        inbox := inbox + [GapFrom(since, missed[0].num)];
      }
      RelayAll(missed);
    }

    method RelayAll(missed: seq<Ev>)
      modifies this
      ensures inbox == old(inbox) + Relays(missed)
    {
      for i := 0 to |missed|
        invariant inbox == old(inbox) + Relays(missed[..i])
      {
        inbox := inbox + [Relayed(missed[i])];
        assert Relays(missed[..i + 1]) == Relays(missed[..i]) + [Relayed(missed[i])];
      }
      assert missed[..|missed|] == missed;
    }
  }
}
