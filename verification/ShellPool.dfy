/**
 The pools of persistent shell sessions: checkout, return, process death and close, one
 locked section per step, over every interleaving.
 */
module ShellPool {
  import opened Text

  datatype SessionState = New | Ready | InUse | Dead

  type Session = nat
  type PoolId = nat
  type CallId = nat

  // ------------------------------------------------------------ one locked checkout

  datatype Pool = Pool(sessions: seq<Session>, count: int)

  /** `releasePersistentShellPoolSlotLocked`. */
  function Release(count: int): (r: int)
    ensures count > 0 ==> r == count - 1
    ensures count <= 0 ==> r == count
  {
    if count > 0 then count - 1 else count
  }

  /** The state of a session; one that was never started is new. */
  function StateOf(status: map<Session, SessionState>, x: Session): SessionState {
    if x in status then status[x] else New
  }

  datatype Taken = Taken(pool: Pool, discarded: seq<Session>, got: Option<Session>)

  /** The first ready session of a pool; those before it are discarded and their slots released. */
  function Take(p: Pool, status: map<Session, SessionState>): Taken
    decreases |p.sessions|
  {
    if p.sessions == [] then Taken(p, [], None)
    else
      var x, rest := p.sessions[0], p.sessions[1..];
      if StateOf(status, x) == Ready then Taken(Pool(rest, p.count), [], Some(x))
      else
        var t := Take(Pool(rest, Release(p.count)), status);
        t.(discarded := [x] + t.discarded)
  }

  datatype Checkout = Checkout(pool: Pool, discarded: seq<Session>, session: Option<Session>)

  /** A ready session, else a new one if the pool has room, else none: the pool is busy. */
  function CheckoutFrom(p: Pool, status: map<Session, SessionState>, size: int, spare: Session): Checkout {
    var t := Take(p, status);
    if t.got.Some? then Checkout(t.pool, t.discarded, t.got)
    else if t.pool.count >= size then Checkout(t.pool, t.discarded, None)
    else Checkout(t.pool.(count := t.pool.count + 1), t.discarded, Some(spare))
  }

  /** Having discarded `before`, the loop of a checkout goes on with pool `p`. */
  ghost predicate TakesOn(start: Pool, status: map<Session, SessionState>, p: Pool, before: seq<Session>) {
    Take(start, status) == Take(p, status).(discarded := before + Take(p, status).discarded)
  }

  lemma TakesFromStart(start: Pool, status: map<Session, SessionState>)
    ensures TakesOn(start, status, start, [])
  {
    assert [] + Take(start, status).discarded == Take(start, status).discarded;
  }

  lemma TakeStep(start: Pool, status: map<Session, SessionState>, p: Pool, before: seq<Session>)
    requires p.sessions != [] && TakesOn(start, status, p, before)
    ensures var x, rest := p.sessions[0], p.sessions[1..];
            if StateOf(status, x) == Ready then Take(start, status) == Taken(Pool(rest, p.count), before, Some(x))
            else TakesOn(start, status, Pool(rest, Release(p.count)), before + [x])
  {
    var x, rest := p.sessions[0], p.sessions[1..];
    if StateOf(status, x) == Ready {
      assert before + [] == before;
    } else {
      var t := Take(Pool(rest, Release(p.count)), status);
      assert before + ([x] + t.discarded) == (before + [x]) + t.discarded;
    }
  }

  lemma TakeNone(start: Pool, status: map<Session, SessionState>, p: Pool, before: seq<Session>)
    requires p.sessions == [] && TakesOn(start, status, p, before)
    ensures Take(start, status) == Taken(p, before, None)
  {
    assert before + [] == before;
  }

  class PersistentShellPool {
    var sessions: seq<Session>
    var count: int

    ghost function Value(): Pool
      reads this
    {
      Pool(sessions, count)
    }

    method CheckoutLocked(status: map<Session, SessionState>, size: int, spare: Session)
      returns (session: Option<Session>, discarded: seq<Session>)
      modifies this
      ensures Checkout(Value(), discarded, session) == CheckoutFrom(old(Value()), status, size, spare)
    {
      discarded := [];
      ghost var start := Value();
      hide Take, Release;
      assert TakesOn(start, status, Value(), discarded) by { TakesFromStart(start, status); }
      while |sessions| > 0
        invariant TakesOn(start, status, Value(), discarded)
        decreases |sessions|
      {
        var x := sessions[0];
        TakeStep(start, status, Value(), discarded);
        sessions := sessions[1..];
        if StateOf(status, x) != Ready {
          count := Release(count);
          discarded := discarded + [x];
          continue;
        }
        return Some(x), discarded;
      }
      TakeNone(start, status, Value(), discarded);
      if count >= size {
        return None, discarded;
      }
      count := count + 1;
      return Some(spare), discarded;
    }

    /** The session comes back: kept if it is, or can be made, ready; otherwise its slot is freed.
        `dies` says that its process exits between the two looks at its state. */
    method ReturnLocked(x: Session, status: map<Session, SessionState>, dies: bool)
      returns (newStatus: map<Session, SessionState>)
      modifies this
      ensures (Value(), newStatus) == HandBackTo(old(Value()), status, x, dies)
    {
      newStatus := status;
      match StateOf(status, x) {
        case Dead => count := Release(count);
        case New => count := Release(count);
        case Ready => sessions := sessions + [x];
        case InUse =>
          if dies {
            newStatus := newStatus[x := Dead];
          }
          if StateOf(newStatus, x) != InUse {
            count := Release(count);
            return;
          }
          newStatus := newStatus[x := Ready];
          sessions := sessions + [x];
      }
    }
  }

  function HandBackTo(p: Pool, status: map<Session, SessionState>, x: Session, dies: bool)
    : (Pool, map<Session, SessionState>)
  {
    match StateOf(status, x)
    case Dead => (p.(count := Release(p.count)), status)
    case New => (p.(count := Release(p.count)), status)
    case Ready => (p.(sessions := p.sessions + [x]), status)
    case InUse =>
      if dies then (p.(count := Release(p.count)), status[x := Dead])
      else (p.(sessions := p.sessions + [x]), status[x := Ready])
  }

  // -------------------------------------------------------------------- the system

  /** Where a caller stands. `pool` in the last two is the pool its slot was taken from. */
  datatype Phase =
    | Outside
    | Routed(key: string, pool: PoolId)
    | Holding(key: string, pool: PoolId, session: Session)
    | Handing(key: string, pool: PoolId, target: Option<PoolId>, session: Session)

  /** Where a session is; this is bookkeeping, no step looks at it. */
  datatype Place = Pooled(pool: PoolId) | HeldBy(call: CallId) | Gone

  datatype State = State(pools: map<PoolId, Pool>, current: map<string, PoolId>,
                         status: map<Session, SessionState>, calls: map<CallId, Phase>,
                         place: map<Session, Place>)

  function At(s: State, c: CallId): Phase {
    if c in s.calls then s.calls[c] else Outside
  }

  function Holds(ph: Phase): bool {
    ph.Holding? || ph.Handing?
  }

  ghost predicate Init(s: State) {
    s == State(map[], map[], map[], map[], map[])
  }

  /** `ensurePersistentPool`; `spare` is the pool object it makes if there is none. */
  function Route(s: State, c: CallId, key: string, spare: PoolId): State {
    if key in s.current then s.(calls := s.calls[c := Routed(key, s.current[key])])
    else s.(pools := s.pools[spare := Pool([], 0)], current := s.current[key := spare],
            calls := s.calls[c := Routed(key, spare)])
  }

  function Mark(place: map<Session, Place>, xs: seq<Session>, at: Place): map<Session, Place>
    decreases |xs|
  {
    if xs == [] then place else Mark(place[xs[0] := at], xs[1..], at)
  }

  function DoCheckout(s: State, c: CallId, size: int, spare: Session): State
    requires At(s, c).Routed? && At(s, c).pool in s.pools
  {
    var p, key := At(s, c).pool, At(s, c).key;
    var r := CheckoutFrom(s.pools[p], s.status, size, spare);
    var s' := s.(pools := s.pools[p := r.pool], place := Mark(s.place, r.discarded, Gone));
    match r.session
    case None => s'.(calls := s.calls[c := Outside])
    case Some(x) =>
      s'.(calls := s.calls[c := Holding(key, p, x)],
          status := if x in s.status then s.status else s.status[x := New],
          place := s'.place[x := HeldBy(c)])
  }

  /** The holder starts, uses, kills its session: it may store any state at any time. */
  function Store(s: State, x: Session, st: SessionState): State {
    s.(status := s.status[x := st])
  }

  /** The map lookup of `returnPersistentSession`. */
  function LookUp(s: State, c: CallId): State
    requires At(s, c).Holding?
  {
    var ph := At(s, c);
    var target := if ph.key in s.current then Some(s.current[ph.key]) else None;
    s.(calls := s.calls[c := Handing(ph.key, ph.pool, target, ph.session)])
  }

  /** Its locked section; without a pool the session is dropped. */
  function HandBack(s: State, c: CallId, dies: bool): State
    requires At(s, c).Handing? && (At(s, c).target.Some? ==> At(s, c).target.value in s.pools)
  {
    var ph := At(s, c);
    match ph.target
    case None => s.(calls := s.calls[c := Outside], place := s.place[ph.session := Gone])
    case Some(p) =>
      var (pool, status) := HandBackTo(s.pools[p], s.status, ph.session, dies);
      var kept := |pool.sessions| > |s.pools[p].sessions|;
      s.(pools := s.pools[p := pool], status := status, calls := s.calls[c := Outside],
         place := s.place[ph.session := if kept then Pooled(p) else Gone])
  }

  /** `ClosePersistentShells` first forgets all pools. */
  function Forget(s: State): State {
    s.(current := map[])
  }

  /** Then it empties each forgotten pool. */
  function Empty(s: State, p: PoolId): State
    requires p in s.pools
  {
    s.(pools := s.pools[p := Pool([], 0)], place := Mark(s.place, s.pools[p].sessions, Gone))
  }

  /** No caller is inside a call: nothing is checked out, and nobody is about to check out. */
  ghost predicate Idle(s: State) {
    forall c :: At(s, c) == Outside
  }

  ghost predicate IsCurrent(s: State, p: PoolId) {
    exists key :: key in s.current && s.current[key] == p
  }

  ghost predicate Next(s: State, s': State, size: int) {
    || (exists c, key, spare :: At(s, c) == Outside && spare !in s.pools && s' == Route(s, c, key, spare))
    || (exists c, spare :: At(s, c).Routed? && At(s, c).pool in s.pools && spare !in s.status
                           && s' == DoCheckout(s, c, size, spare))
    || (exists c, st :: At(s, c).Holding? && s' == Store(s, At(s, c).session, st))
    || (exists x :: x in s.status && s' == Store(s, x, Dead))
    || (exists c :: At(s, c).Holding? && s' == LookUp(s, c))
    || (exists c, dies :: At(s, c).Handing? && (At(s, c).target.Some? ==> At(s, c).target.value in s.pools)
                          && s' == HandBack(s, c, dies))
    || (Idle(s) && s' == Forget(s))
    || (exists p :: p in s.pools && !IsCurrent(s, p) && s' == Empty(s, p))
  }

  // --------------------------------------------------------------- the invariant

  /** Callers whose slot belongs to pool `p`. */
  function Users(s: State, p: PoolId): set<CallId> {
    set c | c in s.calls && Holds(s.calls[c]) && s.calls[c].pool == p
  }

  ghost predicate Distinct(xs: seq<Session>) {
    forall i, j :: 0 <= i < j < |xs| ==> xs[i] != xs[j]
  }

  /** A pool's count is its pooled sessions plus those checked out of it, within the size. */
  ghost predicate Conserved(s: State, size: int) {
    forall p :: p in s.pools ==> s.pools[p].count == |s.pools[p].sessions| + |Users(s, p)| <= size
  }

  /** Pooled sessions are where the books say, once each, and ready unless their process died. */
  ghost predicate PooledPlaced(s: State) {
    && (forall p :: p in s.pools ==> Distinct(s.pools[p].sessions))
    && (forall p, x :: p in s.pools && x in s.pools[p].sessions ==>
          x in s.status && s.status[x] in {Ready, Dead} && x in s.place && s.place[x] == Pooled(p))
  }

  /** So are held ones. */
  ghost predicate HeldPlaced(s: State) {
    && (forall c :: Holds(At(s, c)) ==>
          At(s, c).session in s.status && At(s, c).session in s.place && s.place[At(s, c).session] == HeldBy(c))
    && s.place.Keys <= s.status.Keys
  }

  ghost predicate Placed(s: State) {
    PooledPlaced(s) && HeldPlaced(s)
  }

  /** Callers only know the pool their key leads to. */
  ghost predicate Routes(s: State) {
    && (forall key :: key in s.current ==> s.current[key] in s.pools)
    && (forall c :: At(s, c) != Outside ==>
          At(s, c).key in s.current && s.current[At(s, c).key] == At(s, c).pool && At(s, c).pool in s.pools)
    && (forall c :: At(s, c).Handing? ==> At(s, c).target == Some(At(s, c).pool))
  }

  ghost predicate Inv(s: State, size: int) {
    Conserved(s, size) && Placed(s) && Routes(s)
  }

  // ------------------------------------------------- the loop of a checkout, as a whole

  /** A checkout discards a prefix of non-ready sessions; as long as the count covers the pooled
      sessions, each discarded one gives back exactly one slot. */
  lemma {:induction false} TakeIs(p: Pool, status: map<Session, SessionState>)
    requires p.count >= |p.sessions|
    ensures var t := Take(p, status);
            var d := |t.discarded|;
            && d <= |p.sessions| && t.discarded == p.sessions[..d]
            && (forall x :: x in t.discarded ==> StateOf(status, x) != Ready)
            && t.pool.count == p.count - d
            && (t.got.Some? ==> d < |p.sessions| && t.got.value == p.sessions[d]
                                && StateOf(status, t.got.value) == Ready && t.pool.sessions == p.sessions[d + 1..])
            && (t.got.None? ==> d == |p.sessions| && t.pool.sessions == [])
    decreases |p.sessions|
  {
    if p.sessions != [] && StateOf(status, p.sessions[0]) != Ready {
      var rest := Pool(p.sessions[1..], Release(p.count));
      TakeIs(rest, status);
      var d := |Take(rest, status).discarded|;
      assert p.sessions[..d + 1] == [p.sessions[0]] + p.sessions[1..][..d];
      assert d < |rest.sessions| ==> rest.sessions[d + 1..] == p.sessions[d + 2..];
    }
  }

  /** What a checkout does to the books: a busy pool has lost only sessions that were not ready,
      and a session handed out is ready or new. */
  lemma CheckoutIs(p: Pool, status: map<Session, SessionState>, size: int, spare: Session)
    requires p.count >= |p.sessions| && spare !in status
    ensures var r := CheckoutFrom(p, status, size, spare);
            var d := |r.discarded|;
            && d <= |p.sessions| && r.discarded == p.sessions[..d]
            && match r.session
               case None =>
                 r.pool.sessions == [] && d == |p.sessions| && r.pool.count == p.count - d && r.pool.count >= size
               case Some(x) =>
                 || (d < |p.sessions| && x == p.sessions[d] && StateOf(status, x) == Ready
                     && r.pool == Pool(p.sessions[d + 1..], p.count - d))
                 || (d == |p.sessions| && x == spare && r.pool == Pool([], p.count - d + 1) && p.count - d < size)
  {
    TakeIs(p, status);
  }

  lemma {:induction false} MarkIs(place: map<Session, Place>, xs: seq<Session>, at: Place)
    ensures var m := Mark(place, xs, at);
            && (forall y :: y in m <==> y in place || y in xs)
            && (forall y :: y in xs ==> m[y] == at)
            && (forall y :: y in place && y !in xs ==> m[y] == place[y])
    decreases |xs|
  {
    if xs != [] {
      var next, rest := place[xs[0] := at], xs[1..];
      MarkIs(next, rest, at);
      assert forall y :: y in xs <==> y == xs[0] || y in rest;
      var m := Mark(place, xs, at);
      assert m == Mark(next, rest, at);
      forall y ensures y in m <==> y in place || y in xs {
      }
    }
  }

  // ------------------------------------------------------------ every step keeps it

  ghost predicate CallMoved(s: State, s': State, c: CallId, ph: Phase) {
    s'.calls == s.calls[c := ph]
  }

  lemma MovedAt(s: State, s': State, c: CallId, ph: Phase)
    requires CallMoved(s, s', c, ph)
    ensures forall d :: At(s', d) == if d == c then ph else At(s, d)
  {
  }

  lemma InUsers(s: State, p: PoolId)
    ensures forall c :: c in Users(s, p) <==> Holds(At(s, c)) && At(s, c).pool == p
  {
  }

  /** The users of a pool change only by the caller that moved. */
  lemma MovedUsers(s: State, s': State, c: CallId, ph: Phase)
    requires CallMoved(s, s', c, ph)
    ensures forall p :: |Users(s', p)| == |Users(s, p)|
                        - (if Holds(At(s, c)) && At(s, c).pool == p then 1 else 0)
                        + (if Holds(ph) && ph.pool == p then 1 else 0)
  {
    MovedAt(s, s', c, ph);
    forall p ensures |Users(s', p)| == |Users(s, p)|
                     - (if Holds(At(s, c)) && At(s, c).pool == p then 1 else 0)
                     + (if Holds(ph) && ph.pool == p then 1 else 0)
    {
      InUsers(s, p);
      InUsers(s', p);
      hide Users, At;
      SizeIfChanged(Users(s, p), Users(s', p), c);
    }
  }

  lemma RouteKeepsInv(s: State, c: CallId, key: string, spare: PoolId, size: int)
    requires size > 0 && Inv(s, size) && At(s, c) == Outside && spare !in s.pools
    ensures Inv(Route(s, c, key, spare), size)
  {
    hide Users, At, CallMoved, Conserved, Placed;
    var s' := Route(s, c, key, spare);
    var ph := if key in s.current then Routed(key, s.current[key]) else Routed(key, spare);
    RouteMoves(s, c, key, spare);
    MovedAt(s, s', c, ph);
    MovedUsers(s, s', c, ph);
    NoUsers(s, spare);
    RouteConserves(s, s', c, key, spare, size);
    RoutePlaces(s, s', c, key, spare);
  }

  lemma RouteConserves(s: State, s': State, c: CallId, key: string, spare: PoolId, size: int)
    requires size > 0 && Conserved(s, size) && spare !in s.pools && s' == Route(s, c, key, spare)
    requires |Users(s, spare)| == 0 && forall p :: |Users(s', p)| == |Users(s, p)|
    ensures Conserved(s', size)
  {
    hide Users;
  }

  lemma RoutePlaces(s: State, s': State, c: CallId, key: string, spare: PoolId)
    requires Placed(s)
    requires spare !in s.pools && s' == Route(s, c, key, spare)
    requires forall d :: d != c ==> At(s', d) == At(s, d)
    requires At(s', c) == if key in s.current then Routed(key, s.current[key]) else Routed(key, spare)
    ensures Placed(s')
  {
    hide At, Distinct;
    NoneDistinct();
    assert PooledPlaced(s');
    assert HeldPlaced(s');
  }

  lemma RouteMoves(s: State, c: CallId, key: string, spare: PoolId)
    ensures CallMoved(s, Route(s, c, key, spare), c,
                      if key in s.current then Routed(key, s.current[key]) else Routed(key, spare))
  {
  }

  lemma NoUsers(s: State, p: PoolId)
    requires Routes(s) && p !in s.pools
    ensures |Users(s, p)| == 0
  {
    InUsers(s, p);
    assert Users(s, p) == {};
  }

  lemma CheckoutConserves(s: State, c: CallId, size: int, spare: Session)
    requires Inv(s, size) && At(s, c).Routed? && At(s, c).pool in s.pools && spare !in s.status
    ensures Conserved(DoCheckout(s, c, size, spare), size)
  {
    hide Users, At, CallMoved, CheckoutFrom, Mark, Placed, Routes;
    var p := At(s, c).pool;
    var r := CheckoutFrom(s.pools[p], s.status, size, spare);
    var ph := match r.session case None => Outside case Some(x) => Holding(At(s, c).key, p, x);
    CheckoutIs(s.pools[p], s.status, size, spare);
    CheckoutMoves(s, c, size, spare);
    MovedUsers(s, DoCheckout(s, c, size, spare), c, ph);
  }

  lemma CheckoutRoutes(s: State, c: CallId, size: int, spare: Session)
    requires Inv(s, size) && At(s, c).Routed? && At(s, c).pool in s.pools && spare !in s.status
    ensures Routes(DoCheckout(s, c, size, spare))
  {
    hide Users, At, CallMoved, CheckoutFrom, Mark, Placed, Conserved;
    var r := CheckoutFrom(s.pools[At(s, c).pool], s.status, size, spare);
    CheckoutMoves(s, c, size, spare);
    MovedAt(s, DoCheckout(s, c, size, spare), c,
            match r.session case None => Outside case Some(x) => Holding(At(s, c).key, At(s, c).pool, x));
  }

  /** What a checkout leaves in the pool was there before, and is neither discarded nor handed out. */
  lemma CheckoutKeeps(p: Pool, status: map<Session, SessionState>, size: int, spare: Session)
    requires p.count >= |p.sessions| && spare !in status && Distinct(p.sessions)
    requires forall x :: x in p.sessions ==> x in status
    ensures var r := CheckoutFrom(p, status, size, spare);
            && Distinct(r.pool.sessions)
            && (forall x :: x in r.pool.sessions ==> x in p.sessions && x !in r.discarded && r.session != Some(x))
            && (forall x :: x in r.discarded ==> x in p.sessions && r.session != Some(x))
            && (r.session.Some? ==> r.session.value in p.sessions || r.session.value == spare)
  {
    hide CheckoutFrom;
    CheckoutIs(p, status, size, spare);
  }

  /** The books after a checkout. */
  lemma CheckoutMarks(s: State, c: CallId, size: int, spare: Session)
    requires Inv(s, size) && At(s, c).Routed? && At(s, c).pool in s.pools && spare !in s.status
    ensures var s', p := DoCheckout(s, c, size, spare), At(s, c).pool;
            var r := CheckoutFrom(s.pools[p], s.status, size, spare);
            && s'.pools == s.pools[p := r.pool]
            && (forall y :: y in s.status ==> y in s'.status && s'.status[y] == s.status[y])
            && (forall y :: y in s'.place ==> y in s'.status)
            && (forall y :: y in s.place && y !in r.discarded && r.session != Some(y) ==>
                  y in s'.place && s'.place[y] == s.place[y])
            && (r.session.Some? ==>
                  r.session.value in s'.status && r.session.value in s'.place && s'.place[r.session.value] == HeldBy(c))
  {
    hide Users, CallMoved, CheckoutFrom, Mark, Routes, Distinct;
    var r := CheckoutFrom(s.pools[At(s, c).pool], s.status, size, spare);
    CheckoutKeeps(s.pools[At(s, c).pool], s.status, size, spare);
    MarkIs(s.place, r.discarded, Gone);
  }

  lemma CheckoutPlaces(s: State, c: CallId, size: int, spare: Session)
    requires Inv(s, size) && At(s, c).Routed? && At(s, c).pool in s.pools && spare !in s.status
    ensures Placed(DoCheckout(s, c, size, spare))
  {
    hide Users, At, CallMoved, CheckoutFrom, Mark, Routes, Distinct, DoCheckout, Conserved;
    var p, s' := At(s, c).pool, DoCheckout(s, c, size, spare);
    var r := CheckoutFrom(s.pools[p], s.status, size, spare);
    assert Conserved(s, size);
    CountCovers(s, p, size);
    CheckoutKeeps(s.pools[p], s.status, size, spare);
    CheckoutMoves(s, c, size, spare);
    MovedAt(s, s', c, match r.session case None => Outside case Some(x) => Holding(At(s, c).key, p, x));
    CheckoutMarks(s, c, size, spare);
    forall q, x | q in s'.pools && x in s'.pools[q].sessions
      ensures x in s'.status && s'.status[x] in {Ready, Dead} && x in s'.place && s'.place[x] == Pooled(q)
    {
      assert x in s.pools[q].sessions && s.place[x] == Pooled(q);
    }
    forall d | Holds(At(s', d))
      ensures At(s', d).session in s'.status && At(s', d).session in s'.place
              && s'.place[At(s', d).session] == HeldBy(d)
    {
      if d != c {
        assert At(s', d) == At(s, d) && s.place[At(s, d).session] == HeldBy(d);
      }
    }
  }

  lemma CountCovers(s: State, p: PoolId, size: int)
    requires Conserved(s, size) && p in s.pools
    ensures s.pools[p].count >= |s.pools[p].sessions|
  {
  }

  /** The caller's pool lends it the session, or stays as it was but for discarded sessions. */
  lemma CheckoutKeepsInv(s: State, c: CallId, size: int, spare: Session)
    requires Inv(s, size) && At(s, c).Routed? && At(s, c).pool in s.pools && spare !in s.status
    ensures Inv(DoCheckout(s, c, size, spare), size)
  {
    hide Conserved, Placed, Routes, DoCheckout;
    assert Inv(s, size);
    CheckoutConserves(s, c, size, spare);
    CheckoutPlaces(s, c, size, spare);
    CheckoutRoutes(s, c, size, spare);
  }

  lemma CheckoutMoves(s: State, c: CallId, size: int, spare: Session)
    requires At(s, c).Routed? && At(s, c).pool in s.pools
    ensures var r := CheckoutFrom(s.pools[At(s, c).pool], s.status, size, spare);
            CallMoved(s, DoCheckout(s, c, size, spare), c,
                      match r.session case None => Outside case Some(x) => Holding(At(s, c).key, At(s, c).pool, x))
  {
    hide CheckoutFrom, Mark;
  }

  lemma StoreKeepsInv(s: State, x: Session, st: SessionState, size: int)
    requires Inv(s, size) && x in s.status
    requires st == Dead || exists c :: At(s, c).Holding? && At(s, c).session == x
    ensures Inv(Store(s, x, st), size)
  {
    var s' := Store(s, x, st);
    assert forall c :: At(s', c) == At(s, c);
    assert forall p :: Users(s', p) == Users(s, p);
  }

  lemma LookUpKeepsInv(s: State, c: CallId, size: int)
    requires Inv(s, size) && At(s, c).Holding?
    ensures Inv(LookUp(s, c), size)
  {
    hide Users, At, CallMoved;
    var s', ph := LookUp(s, c), At(s, c);
    var ph' := Handing(ph.key, ph.pool, Some(s.current[ph.key]), ph.session);
    LookUpMoves(s, c);
    MovedAt(s, s', c, ph');
    MovedUsers(s, s', c, ph');
  }

  lemma LookUpMoves(s: State, c: CallId)
    requires At(s, c).Holding?
    ensures var ph := At(s, c);
            CallMoved(s, LookUp(s, c), c,
                      Handing(ph.key, ph.pool,
                              if ph.key in s.current then Some(s.current[ph.key]) else None, ph.session))
  {
  }

  /** A released slot was taken: the guard on the count never matters. */
  lemma SlotWasTaken(s: State, c: CallId, size: int)
    requires Inv(s, size) && Holds(At(s, c))
    ensures s.pools[At(s, c).pool].count > 0
    ensures Release(s.pools[At(s, c).pool].count) == s.pools[At(s, c).pool].count - 1
  {
    var p := At(s, c).pool;
    InUsers(s, p);
    assert c in Users(s, p);
  }

  lemma HandBackMoves(s: State, c: CallId, dies: bool)
    requires At(s, c).Handing? && (At(s, c).target.Some? ==> At(s, c).target.value in s.pools)
    ensures CallMoved(s, HandBack(s, c, dies), c, Outside)
  {
  }

  /** What the locked section of a return does: the session is kept, ready, or its slot is freed. */
  lemma HandBackIs(p: Pool, status: map<Session, SessionState>, x: Session, dies: bool)
    requires x in status && p.count > 0
    ensures var (q, st) := HandBackTo(p, status, x, dies);
            && st.Keys == status.Keys && (forall y :: y in status && y != x ==> st[y] == status[y])
            && (|q.sessions| > |p.sessions| ==> q == Pool(p.sessions + [x], p.count) && st[x] == Ready)
            && (|q.sessions| <= |p.sessions| ==> q == Pool(p.sessions, p.count - 1))
            && (|q.sessions| > |p.sessions| <==> status[x] == Ready || (status[x] == InUse && !dies))
  {
  }

  lemma HandBackConserves(s: State, c: CallId, dies: bool, size: int)
    requires Inv(s, size) && At(s, c).Handing?
    ensures At(s, c).target.Some? && At(s, c).target.value in s.pools
    ensures Conserved(HandBack(s, c, dies), size)
  {
    hide Users, At, CallMoved, HandBackTo;
    SlotWasTaken(s, c, size);
    HandBackIs(s.pools[At(s, c).pool], s.status, At(s, c).session, dies);
    HandBackMoves(s, c, dies);
    MovedUsers(s, HandBack(s, c, dies), c, Outside);
  }

  lemma HandBackPlaces(s: State, c: CallId, dies: bool, size: int)
    requires Inv(s, size) && At(s, c).Handing?
    requires At(s, c).target.Some? && At(s, c).target.value in s.pools
    ensures Placed(HandBack(s, c, dies)) && Routes(HandBack(s, c, dies))
  {
    hide Users, At, CallMoved, HandBackTo;
    SlotWasTaken(s, c, size);
    HandBackIs(s.pools[At(s, c).pool], s.status, At(s, c).session, dies);
    HandBackMoves(s, c, dies);
    MovedAt(s, HandBack(s, c, dies), c, Outside);
  }

  lemma ForgetKeepsInv(s: State, size: int)
    requires Inv(s, size) && Idle(s)
    ensures Inv(Forget(s), size)
  {
    var s' := Forget(s);
    assert forall c :: At(s', c) == At(s, c);
    assert forall p :: Users(s', p) == Users(s, p);
  }

  lemma EmptyKeepsInv(s: State, p: PoolId, size: int)
    requires size > 0 && Inv(s, size) && p in s.pools && !IsCurrent(s, p)
    ensures Inv(Empty(s, p), size)
  {
    hide Mark, Users;
    var s' := Empty(s, p);
    SameUsers(s, s');
    MarkIs(s.place, s.pools[p].sessions, Gone);
    assert Conserved(s', size) by {
      hide Placed;
      NoUsersOfForgotten(s, p);
    }
    EmptyPlaces(s, p);
    assert Routes(s') by {
      hide Conserved, Placed;
    }
  }

  lemma EmptyPlaces(s: State, p: PoolId)
    requires Placed(s) && p in s.pools
    ensures Placed(Empty(s, p))
  {
    hide Mark, Users, Distinct, At;
    var s', xs := Empty(s, p), s.pools[p].sessions;
    EmptyMoves(s, p);
    MarkIs(s.place, xs, Gone);
    assert Distinct([]) by { NoneDistinct(); }
    forall q, x | q in s'.pools && x in s'.pools[q].sessions
      ensures x in s'.status && s'.status[x] in {Ready, Dead} && x in s'.place && s'.place[x] == Pooled(q)
    {
      assert q != p && s.place[x] == Pooled(q);
      assert x !in xs;
    }
    forall c | Holds(At(s', c))
      ensures At(s', c).session in s'.status && At(s', c).session in s'.place
              && s'.place[At(s', c).session] == HeldBy(c)
    {
      assert At(s, c).session !in xs;
    }
  }

  lemma EmptyMoves(s: State, p: PoolId)
    requires p in s.pools
    ensures forall c :: At(Empty(s, p), c) == At(s, c)
  {
    hide Mark;
  }

  lemma NoneDistinct()
    ensures Distinct([])
  {
  }

  lemma SameUsers(s: State, s': State)
    requires s.calls == s'.calls
    ensures forall c :: At(s', c) == At(s, c)
    ensures forall p :: Users(s', p) == Users(s, p)
  {
  }

  lemma NoUsersOfForgotten(s: State, p: PoolId)
    requires Routes(s) && !IsCurrent(s, p)
    ensures |Users(s, p)| == 0
  {
    InUsers(s, p);
    assert Users(s, p) == {};
  }

  // ------------------------------------------------------------------- whole runs

  ghost predicate IsRun(run: seq<State>, size: int) {
    && run != [] && Init(run[0])
    && forall i :: 0 <= i < |run| - 1 ==> Next(run[i], run[i + 1], size)
  }

  lemma NextKeepsInv(s: State, s': State, size: int)
    requires size > 0 && Inv(s, size) && Next(s, s', size)
    ensures Inv(s', size)
  {
    hide Route, DoCheckout, Store, LookUp, HandBack, Forget, Empty, Conserved, Routes, IsCurrent;
    if c, key, spare :| At(s, c) == Outside && spare !in s.pools && s' == Route(s, c, key, spare) {
      RouteKeepsInv(s, c, key, spare, size);
    } else if c, spare :| At(s, c).Routed? && At(s, c).pool in s.pools && spare !in s.status
                          && s' == DoCheckout(s, c, size, spare) {
      CheckoutKeepsInv(s, c, size, spare);
    } else if c, st :| At(s, c).Holding? && s' == Store(s, At(s, c).session, st) {
      StoreKeepsInv(s, At(s, c).session, st, size);
    } else if x :| x in s.status && s' == Store(s, x, Dead) {
      StoreKeepsInv(s, x, Dead, size);
    } else if c :| At(s, c).Holding? && s' == LookUp(s, c) {
      LookUpKeepsInv(s, c, size);
    } else if c, dies :| At(s, c).Handing? && (At(s, c).target.Some? ==> At(s, c).target.value in s.pools)
                         && s' == HandBack(s, c, dies) {
      HandBackKeepsInv(s, c, dies, size);
    } else if Idle(s) && s' == Forget(s) {
      ForgetKeepsInv(s, size);
    } else {
      var p :| p in s.pools && !IsCurrent(s, p) && s' == Empty(s, p);
      EmptyKeepsInv(s, p, size);
    }
  }

  lemma HandBackKeepsInv(s: State, c: CallId, dies: bool, size: int)
    requires Inv(s, size) && At(s, c).Handing?
    requires At(s, c).target.Some? ==> At(s, c).target.value in s.pools
    ensures Inv(HandBack(s, c, dies), size)
  {
    hide Conserved, Placed, Routes, HandBack;
    assert Inv(s, size);
    HandBackConserves(s, c, dies, size);
    HandBackPlaces(s, c, dies, size);
  }

  lemma {:induction false} RunKeepsInv(run: seq<State>, size: int)
    requires size > 0 && IsRun(run, size)
    ensures Inv(run[|run| - 1], size)
    decreases |run|
  {
    hide Inv, Next;
    var n := |run| - 1;
    if n == 0 {
      InitHasInv(run[0], size);
    } else {
      RunKeepsInv(run[..n], size);
      assert Next(run[n - 1], run[n - 1 + 1], size);
      NextKeepsInv(run[n - 1], run[n], size);
    }
  }

  lemma InitHasInv(s: State, size: int)
    requires Init(s) && size > 0
    ensures Inv(s, size)
  {
  }

  /** In every run in which pools are closed only while no caller is inside a call, each pool's
      count is its pooled sessions plus those checked out of it, and never exceeds the size. */
  lemma CountsAreConserved(run: seq<State>, size: int, p: PoolId)
    requires size > 0 && IsRun(run, size) && p in run[|run| - 1].pools
    ensures var s := run[|run| - 1];
            0 <= s.pools[p].count == |s.pools[p].sessions| + |Users(s, p)| <= size
  {
    RunKeepsInv(run, size);
  }

  /** No session is pooled twice, pooled in two pools, held twice, or both pooled and held. */
  lemma SessionsAreExclusive(run: seq<State>, size: int)
    requires size > 0 && IsRun(run, size)
    ensures var s := run[|run| - 1];
            && (forall p :: p in s.pools ==> Distinct(s.pools[p].sessions))
            && (forall p, q, x :: p in s.pools && q in s.pools && x in s.pools[p].sessions && x in s.pools[q].sessions
                  ==> p == q)
            && (forall c, d :: Holds(At(s, c)) && Holds(At(s, d)) && At(s, c).session == At(s, d).session ==> c == d)
            && (forall p, c :: p in s.pools && Holds(At(s, c)) ==> At(s, c).session !in s.pools[p].sessions)
  {
    hide Conserved, Routes, Next;
    RunKeepsInv(run, size);
    var s := run[|run| - 1];
    assert PooledPlaced(s) && HeldPlaced(s);
    forall p, q, x | p in s.pools && q in s.pools && x in s.pools[p].sessions && x in s.pools[q].sessions
      ensures p == q
    {
      assert s.place[x] == Pooled(p) && s.place[x] == Pooled(q);
    }
  }

  /** A checkout hands out a session nobody has, which is ready or brand new, and turns a caller
      away only when every slot is taken by a session in use. */
  lemma CheckoutIsSound(run: seq<State>, size: int, c: CallId, spare: Session)
    requires size > 0 && IsRun(run, size)
    requires var s := run[|run| - 1]; At(s, c).Routed? && spare !in s.status
    ensures var s := run[|run| - 1];
            && At(s, c).pool in s.pools
            && var s' := DoCheckout(s, c, size, spare);
               && (At(s', c).Holding? ==>
                     StateOf(s.status, At(s', c).session) in {New, Ready}
                     && forall d :: Holds(At(s, d)) ==> At(s, d).session != At(s', c).session)
               && (At(s', c) == Outside ==> |Users(s, At(s, c).pool)| == size)
  {
    hide CallMoved, CheckoutFrom, Mark, Next, Users, Distinct;
    RunKeepsInv(run, size);
    var s := run[|run| - 1];
    var p := At(s, c).pool;
    CountCovers(s, p, size);
    CheckoutIs(s.pools[p], s.status, size, spare);
    CheckoutKeeps(s.pools[p], s.status, size, spare);
  }

  // ----------------------------------------------------------- the state of a pooled session

  /** A pooled session is ready unless its process has died. */
  lemma PooledIsReadyOrDead(run: seq<State>, size: int, p: PoolId, x: Session)
    requires size > 0 && IsRun(run, size)
    requires p in run[|run| - 1].pools && x in run[|run| - 1].pools[p].sessions
    ensures var s := run[|run| - 1]; x in s.status && (s.status[x] == Ready <==> s.status[x] != Dead)
  {
    hide Conserved, Routes, Next;
    RunKeepsInv(run, size);
    assert PooledPlaced(run[|run| - 1]);
  }

  /** And it may have: so not every pooled session is ready. */
  lemma PooledSessionMayBeDead(size: int) returns (run: seq<State>)
    requires size > 0
    ensures IsRun(run, size)
    ensures var s := run[|run| - 1]; 0 in s.pools && s.pools[0].sessions == [0] && StateOf(s.status, 0) == Dead
  {
    run := OneOut(size);
    var s3 := run[3];
    var s4 := LookUp(s3, 0);
    assert At(s4, 0) == Handing("k", 0, Some(0), 0);
    var s5 := HandBack(s4, 0, false);
    assert [] + [0] == [0];
    assert s5.pools[0] == Pool([0], 1);
    var s6 := Store(s5, 0, Dead);
    run := run + [s4, s5, s6];
    assert Next(s3, s4, size) && Next(s4, s5, size) && Next(s5, s6, size);
  }

  /** A caller has taken the first session of a new pool and put it to use. */
  lemma OneOut(size: int) returns (run: seq<State>)
    requires size > 0
    ensures IsRun(run, size) && |run| == 4
    ensures run[3] == State(map[0 := Pool([], 1)], map["k" := 0], map[0 := InUse],
                            map[0 := Holding("k", 0, 0)], map[0 := HeldBy(0)])
  {
    var s0 := State(map[], map[], map[], map[], map[]);
    var s1 := Route(s0, 0, "k", 0);
    var s2 := DoCheckout(s1, 0, size, 0);
    var s3 := Store(s2, 0, InUse);
    assert At(s0, 0) == Outside && At(s1, 0) == Routed("k", 0);
    assert s2 == State(map[0 := Pool([], 1)], map["k" := 0], map[0 := New],
                       map[0 := Holding("k", 0, 0)], map[0 := HeldBy(0)]);
    assert At(s2, 0).Holding? && At(s2, 0).session == 0;
    assert Next(s0, s1, size) && Next(s1, s2, size) && Next(s2, s3, size);
    run := [s0, s1, s2, s3];
  }

  // ------------------------------------------------------- when pools may be closed

  /** Steps lead from a state along a path. */
  ghost predicate Leads(s: State, path: seq<State>, size: int) {
    && path != [] && path[0] == s
    && forall i :: 0 <= i < |path| - 1 ==> Next(path[i], path[i + 1], size)
  }

  /** Whatever happens next, the counts stay right. */
  ghost predicate StaysConserved(s: State, size: int) {
    forall path :: Leads(s, path, size) ==> Conserved(path[|path| - 1], size)
  }

  lemma {:induction false} LeadsKeepsInv(s: State, path: seq<State>, size: int)
    requires size > 0 && Inv(s, size) && Leads(s, path, size)
    ensures Inv(path[|path| - 1], size)
    decreases |path|
  {
    hide Inv, Next;
    var n := |path| - 1;
    if n > 0 {
      LeadsKeepsInv(s, path[..n], size);
      assert Next(path[n - 1], path[n - 1 + 1], size);
      NextKeepsInv(path[n - 1], path[n], size);
    }
  }

  /** A pool that is forgotten and emptied while one of its sessions is out counts too little. */
  lemma EmptyingLosesHeld(s: State, c: CallId, size: int)
    requires Holds(At(s, c)) && At(s, c).pool in s.pools
    ensures !Conserved(Empty(s, At(s, c).pool), size)
  {
    hide Mark;
    var p := At(s, c).pool;
    var s' := Empty(s, p);
    SameUsers(s, s');
    InUsers(s, p);
    assert c in Users(s', p);
  }

  /** Closing with a session out breaks the count of its pool at once. */
  lemma ClosingUnderHolder(s: State, c: CallId, size: int) returns (path: seq<State>)
    requires Inv(s, size) && Holds(At(s, c))
    ensures Leads(Forget(s), path, size) && !Conserved(path[|path| - 1], size)
  {
    var f, p := Forget(s), At(s, c).pool;
    assert At(f, c) == At(s, c);
    EmptyingLosesHeld(f, c, size);
    assert !IsCurrent(f, p);
    assert Next(f, Empty(f, p), size);
    path := [f, Empty(f, p)];
  }

  /** Closing while a caller is between finding its pool and checking out of it lets that caller
      take a session of a forgotten pool. */
  lemma ClosingUnderRouted(s: State, c: CallId, size: int) returns (path: seq<State>)
    requires size > 0 && Inv(s, size) && At(s, c).Routed?
    requires forall d :: !Holds(At(s, d))
    ensures Leads(Forget(s), path, size) && !Conserved(path[|path| - 1], size)
  {
    hide CheckoutFrom, Mark, Users, Empty;
    var f, p := Forget(s), At(s, c).pool;
    assert At(f, c) == At(s, c);
    var spare := SpareSession(s);
    var t := DoCheckout(f, c, size, spare);
    assert |Users(s, p)| == 0 by {
      InUsers(s, p);
      assert Users(s, p) == {};
    }
    CheckoutIs(s.pools[p], s.status, size, spare);
    assert At(t, c).Holding? && At(t, c).pool == p;
    EmptyingLosesHeld(t, c, size);
    assert !IsCurrent(t, p);
    assert Next(f, t, size) && Next(t, Empty(t, p), size);
    path := [f, t, Empty(t, p)];
  }

  /** There is always a session that was never started. */
  lemma SpareSession(s: State) returns (x: Session)
    ensures x !in s.status
  {
    x := AboveAll(s.status.Keys);
  }

  /** In any state that keeps the books, closing keeps them from then on if and only if no caller
      is inside a call: none holds a session, none is handing one back, and none is between
      finding its pool and checking out of it. */
  lemma ClosingIsSafeExactly(s: State, size: int)
    requires size > 0 && Inv(s, size)
    ensures StaysConserved(Forget(s), size) <==> Idle(s)
  {
    hide Inv, Next;
    if Idle(s) {
      ForgetKeepsInv(s, size);
      forall path | Leads(Forget(s), path, size) ensures Conserved(path[|path| - 1], size) {
        LeadsKeepsInv(Forget(s), path, size);
        InvConserves(path[|path| - 1], size);
      }
    } else if c :| Holds(At(s, c)) {
      var path := ClosingUnderHolder(s, c, size);
    } else {
      var c :| At(s, c) != Outside;
      var path := ClosingUnderRouted(s, c, size);
    }
  }

  /** Then they can be closed, and each pool emptied. */
  lemma IdlePoolsCanBeClosed(s: State, p: PoolId, size: int)
    requires Idle(s) && p in s.pools
    ensures Next(s, Forget(s), size) && Next(Forget(s), Empty(Forget(s), p), size)
    ensures Empty(Forget(s), p).current == map[] && Empty(Forget(s), p).pools[p] == Pool([], 0)
  {
    hide Mark;
    assert !IsCurrent(Forget(s), p);
  }

  lemma InvConserves(s: State, size: int)
    requires Inv(s, size)
    ensures Conserved(s, size)
  {
  }

  lemma FiveSteps(a: State, b: State, c: State, d: State, e: State, f: State, size: int)
    requires Next(a, b, size) && Next(b, c, size) && Next(c, d, size) && Next(d, e, size) && Next(e, f, size)
    ensures Leads(a, [a, b, c, d, e, f], size)
  {
    hide Next;
  }

  /** A pool that was emptied is closed, and another caller finds a new one. */
  lemma Reopens(s: State, size: int) returns (f: State, e: State, r: State)
    requires At(s, 1) == Outside && s.pools.Keys == {0}
    ensures f == Forget(s) && Next(f, e, size) && Next(e, r, size)
    ensures r.current == map["k" := 1] && r.status == s.status && r.calls == s.calls[1 := Routed("k", 1)]
    ensures 1 in r.pools && r.pools[1] == Pool([], 0)
  {
    hide Mark;
    f := Forget(s);
    assert !IsCurrent(f, 0);
    e := Empty(f, 0);
    assert At(e, 1) == Outside && e.current == map[];
    r := Route(e, 1, "k", 1);
  }

  /** That caller takes a session of the new pool. */
  lemma TakesNew(r: State, size: int) returns (t: State)
    requires size > 0 && At(r, 1) == Routed("k", 1) && 1 in r.pools && r.pools[1] == Pool([], 0) && 1 !in r.status
    ensures Next(r, t, size)
    ensures t.current == r.current && t.calls == r.calls[1 := Holding("k", 1, 1)] && t.status == r.status[1 := New]
    ensures 1 in t.pools && t.pools[1] == Pool([], 1)
  {
    assert CheckoutFrom(Pool([], 0), r.status, size, 1) == Checkout(Pool([], 1), [], Some(1));
    t := DoCheckout(r, 1, size, 1);
  }

  /** A run after which the pools are closed with a session out: the session returns late, to the
      new pool, which then counts one session of two. */
  lemma ClosingEarlyBreaksCounts(size: int) returns (run: seq<State>, path: seq<State>)
    requires size > 0
    ensures IsRun(run, size) && Holds(At(run[|run| - 1], 0))
    ensures Leads(Forget(run[|run| - 1]), path, size)
    ensures var s := path[|path| - 1];
            && "k" in s.current && s.current["k"] == 1
            && 1 in s.pools && s.pools[1] == Pool([0], 1) && At(s, 1) == Holding("k", 1, 1)
            && !Conserved(s, size)
  {
    run := OneOut(size);
    hide Next, IsRun, Conserved, Leads;
    var f, e, r := Reopens(run[3], size);
    var t := TakesNew(r, size);
    var l, h := LateReturn(t, size);
    FiveSteps(f, e, r, t, l, h, size);
    path := [f, e, r, t, l, h];
  }

  lemma LateReturn(t: State, size: int) returns (l: State, h: State)
    requires At(t, 0) == Holding("k", 0, 0) && At(t, 1) == Holding("k", 1, 1)
    requires t.current == map["k" := 1] && StateOf(t.status, 0) == InUse
    requires 1 in t.pools && t.pools[1] == Pool([], 1)
    ensures Next(t, l, size) && Next(l, h, size)
    ensures h.current == t.current && 1 in h.pools && h.pools[1] == Pool([0], 1) && At(h, 1) == Holding("k", 1, 1)
    ensures !Conserved(h, size)
  {
    l := LookUp(t, 0);
    assert At(l, 0) == Handing("k", 0, Some(1), 0) && At(l, 1) == At(t, 1);
    h := HandBack(l, 0, false);
    assert [] + [0] == [0];
    assert h.pools[1] == Pool([0], 1) && At(h, 1) == At(t, 1);
    assert 1 in Users(h, 1);
  }

  /** A run after which the pools are closed with nothing out, but a caller about to check out: the
      session it takes has no pool to return to, and the forgotten one counts it forever. */
  lemma ClosingUnderRouteBreaksCounts(size: int) returns (run: seq<State>, path: seq<State>)
    requires size > 0
    ensures IsRun(run, size) && var s := run[|run| - 1]; forall c :: !Holds(At(s, c))
    ensures Leads(Forget(run[|run| - 1]), path, size)
    ensures var s := path[|path| - 1];
            0 in s.pools && s.pools[0] == Pool([], 1) && Users(s, 0) == {} && !Conserved(s, size)
  {
    run := OneRouted(size);
    hide Next, IsRun, Conserved;
    var f := Forget(run[1]);
    var t := TakesForgotten(f, size);
    var l, h := DropsForgotten(t, size);
    path := [f, t, l, h];
  }

  /** A caller has found a new pool and not yet checked out of it. */
  lemma OneRouted(size: int) returns (run: seq<State>)
    ensures IsRun(run, size) && |run| == 2
    ensures run[1] == State(map[0 := Pool([], 0)], map["k" := 0], map[], map[0 := Routed("k", 0)], map[])
  {
    var s0 := State(map[], map[], map[], map[], map[]);
    var s1 := Route(s0, 0, "k", 0);
    assert At(s0, 0) == Outside && Next(s0, s1, size);
    run := [s0, s1];
  }

  lemma TakesForgotten(f: State, size: int) returns (t: State)
    requires size > 0 && At(f, 0) == Routed("k", 0) && 0 in f.pools && f.pools[0] == Pool([], 0) && 0 !in f.status
    ensures Next(f, t, size)
    ensures t.current == f.current && t.calls == f.calls[0 := Holding("k", 0, 0)]
    ensures 0 in t.pools && t.pools[0] == Pool([], 1)
  {
    assert CheckoutFrom(Pool([], 0), f.status, size, 0) == Checkout(Pool([], 1), [], Some(0));
    t := DoCheckout(f, 0, size, 0);
  }

  lemma DropsForgotten(t: State, size: int) returns (l: State, h: State)
    requires t.calls == map[0 := Holding("k", 0, 0)] && t.current == map[]
    requires 0 in t.pools && t.pools[0] == Pool([], 1)
    ensures Next(t, l, size) && Next(l, h, size)
    ensures 0 in h.pools && h.pools[0] == Pool([], 1) && Users(h, 0) == {} && !Conserved(h, size)
  {
    l := LookUp(t, 0);
    assert At(l, 0) == Handing("k", 0, None, 0);
    h := HandBack(l, 0, false);
    assert h.calls == map[0 := Outside] && Users(h, 0) == {};
  }
}
