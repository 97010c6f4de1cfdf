/** The blessing chain (`Blessing`) and the aggregator over it (`PermissionManager`).

    A blessing is a grant from a source to a target. Its rules live in a `PermissionTree`
    linked to the tree of the blessing it was granted from, so a grant never exceeds what its
    source received. Blessings notify the listeners registered with them: a child blessing's
    parent listener, the manager's refresh listener, and listeners from outside the core.
    The manager indexes every blessing by id and by (source, target), folds the received
    blessings' rules into a permission cache, and gates remote permission requests on that
    cache. */
module Delegation {
  import opened Wrappers
  import opened Paths
  import opened Masks
  import opened PermissionNodes
  import opened NodeStructure
  import opened NodeIteration
  import opened PermissionTrees
  import opened PermissionCache
  import opened Requests
  import opened RuleFold
  import Utils

  /** The table row under which blessings without a source (root blessings) are stored. */
  const KEY_ROOT: string := "root"

  const FLAG_DEFAULT: Mask := NONE
  const FLAG_WRITE: Mask := Mask(1)
  const FLAG_READ: Mask := Mask(2)

  /** The OnBlessingUpdatedListener objects a blessing can hold. */
  datatype Listener =
    | ParentLink(child: Blessing)   // the `parentListener` of `child`, held by child's parent
    | ManagerLink                   // the manager's `blessingChangedListner`
    | Observer(id: nat)             // a listener from outside the core

  /** A call made on an outside listener of a blessing. */
  datatype BlessingEvent =
    | Updated(observer: nat, blessing: Blessing)   // onBlessingUpdated
    | Removed(observer: nat, blessing: Blessing)   // onBlessingRemoved

  /** A write a blessing makes to its store record. */
  datatype StoreWrite =
    | SetField(field: string, value: string)   // ref.child(field).setValue(value)
    | SetRule(path: Path, mask: Mask)          // the rule reference's setPermission
    | ClearRule(path: Path)                    // the rule reference's clearPermission
    | RemoveRules(path: Path)                  // removeValue on the rules, or on one path of them

  /** The rules a blessing's writes leave recorded the way its `permissions` map records
      them: a rule write records its mask for its path, a clear forgets the path, and the
      other writes leave the record as it was. */
  function Recorded(writes: seq<StoreWrite>): map<Path, Mask>
    decreases |writes|
  {
    if writes == [] then map[]
    else
      var before := Recorded(writes[..|writes| - 1]);
      var w := writes[|writes| - 1];
      if w.SetRule? then before[w.path := w.mask]
      else if w.ClearRule? then before - {w.path}
      else before
  }

  /** One more write updates the record by that write alone. */
  lemma RecordedSnoc(writes: seq<StoreWrite>, w: StoreWrite)
    ensures Recorded(writes + [w]) ==
      if w.SetRule? then Recorded(writes)[w.path := w.mask]
      else if w.ClearRule? then Recorded(writes) - {w.path}
      else Recorded(writes)
  {
    assert (writes + [w])[..|writes|] == writes;
  }

  /** The entries of `m` under the keys `ks`. */
  function Restricted<K, V>(m: map<K, V>, ks: set<K>): map<K, V>
    requires ks <= m.Keys
  {
    map k | k in ks :: m[k]
  }

  /** Putting one more entry of `m` over `a` extends the restriction by that entry. */
  lemma RestrictedStep<K, V>(a: map<K, V>, m: map<K, V>, ks: set<K>, k: K)
    requires ks <= m.Keys && k in m
    ensures (a + Restricted(m, ks))[k := m[k]] == a + Restricted(m, ks + {k})
  {
  }

  /** The rule writes setPermissions(map) makes for the paths `done`. */
  function RuleWrites(perms: map<Path, Mask>, done: set<Path>): set<StoreWrite>
    requires done <= perms.Keys
  {
    set p | p in done :: SetRule(p, perms[p])
  }

  /** One more path written: one more write, and its rule write among them. */
  lemma RuleWritesStep(perms: map<Path, Mask>, done: set<Path>, p: Path, added: seq<StoreWrite>)
    requires done <= perms.Keys && p in perms && p !in done
    requires |added| == |done| && Elements(added) == RuleWrites(perms, done)
    ensures |added + [SetRule(p, perms[p])]| == |done + {p}|
    ensures Elements(added + [SetRule(p, perms[p])]) == RuleWrites(perms, done + {p})
  {
    ElementsAppend(added, [SetRule(p, perms[p])]);
    ElementsOne(SetRule(p, perms[p]));
  }

  /** The fields `fromSnapshot` reads from a blessing record. */
  datatype BlessingRecord = BlessingRecord(key: string, target: string, source: Option<string>)

  datatype BlessError = TargetInChain

  /** A call made on an outside request listener, with the request and the blessing
      bless(source) gave: onRequest, or onRequestRemoved. */
  datatype RequestEvent =
    | Offered(listener: nat, request: PermissionRequest, blessing: Blessing)
    | Withdrawn(listener: nat, request: PermissionRequest, blessing: Blessing)

  /** The null dereference onRequestRemoved fails with for a record without a value. */
  datatype RequestError = MissingValue

  /** The listeners among `listeners` that decline `request`. */
  function Declined(listeners: set<nat>, accepts: (nat, PermissionRequest) -> bool, request: PermissionRequest): set<nat> {
    set l | l in listeners && !accepts(l, request)
  }

  /** The listeners of the registrations `matched` that accept `request`. */
  function Accepted(matched: set<(Path, nat)>, accepts: (nat, PermissionRequest) -> bool, request: PermissionRequest): set<nat> {
    set m | m in matched && accepts(m.1, request) :: m.1
  }

  /** The subscriptions of `listeners` to the request `rId`. */
  function Tagged(rId: string, listeners: set<nat>): (r: set<(string, nat)>)
    ensures forall x :: x in r <==> x.0 == rId && x.1 in listeners
  {
    set l | l in listeners :: (rId, l)
  }

  /** The onRequest calls offering `request` with `b` to each of `listeners`. */
  function OffersTo(listeners: set<nat>, request: PermissionRequest, b: Blessing): set<RequestEvent> {
    set l | l in listeners :: Offered(l, request, b)
  }

  /** The onRequest calls offering `request` with `b` to the listener of each registration. */
  function OffersAt(matched: set<(Path, nat)>, request: PermissionRequest, b: Blessing): set<RequestEvent> {
    set m | m in matched :: Offered(m.1, request, b)
  }

  /** The onRequestRemoved calls withdrawing `request` with `b` from each of `listeners`. */
  function WithdrawalsFrom(listeners: set<nat>, request: PermissionRequest, b: Blessing): set<RequestEvent> {
    set l | l in listeners :: Withdrawn(l, request, b)
  }

  lemma OfferStep(done: set<nat>, l: nat, accepts: (nat, PermissionRequest) -> bool, request: PermissionRequest, b: Blessing)
    ensures Declined(done + {l}, accepts, request) == Declined(done, accepts, request) + (if accepts(l, request) then {} else {l})
    ensures OffersTo(done + {l}, request, b) == OffersTo(done, request, b) + {Offered(l, request, b)}
  {
  }

  lemma WithdrawStep(done: set<nat>, l: nat, request: PermissionRequest, b: Blessing)
    ensures WithdrawalsFrom(done + {l}, request, b) == WithdrawalsFrom(done, request, b) + {Withdrawn(l, request, b)}
  {
  }

  lemma OfferAtStep(done: set<(Path, nat)>, m: (Path, nat), accepts: (nat, PermissionRequest) -> bool, request: PermissionRequest, b: Blessing)
    ensures Accepted(done + {m}, accepts, request) == Accepted(done, accepts, request) + (if accepts(m.1, request) then {m.1} else {})
    ensures OffersAt(done + {m}, request, b) == OffersAt(done, request, b) + {Offered(m.1, request, b)}
  {
  }

  /** Appending one call to a loop's log of calls. */
  lemma LogStep<T>(calls: seq<T>, done: set<T>, x: T)
    requires Elements(calls) == done
    ensures Elements(calls + [x]) == done + {x}
  {
    ElementsAppend(calls, [x]);
    ElementsOne(x);
  }

  /** Offering `request` to each listener in turn, the set taken in some order: the calls
      made, one per listener, and the listeners that declined. */
  method OfferEach(listeners: set<nat>, accepts: (nat, PermissionRequest) -> bool, request: PermissionRequest, b: Blessing)
    returns (declined: set<nat>, calls: seq<RequestEvent>)
    ensures declined == Declined(listeners, accepts, request)
    ensures |calls| == |listeners| && Elements(calls) == OffersTo(listeners, request, b)
  {
    declined := {};
    calls := [];
    var todo, done := listeners, {};
    while todo != {}
      invariant done <= listeners && todo == listeners - done
      invariant declined == Declined(done, accepts, request)
      invariant |calls| == |done| && Elements(calls) == OffersTo(done, request, b)
      decreases todo
    {
      var l :| l in todo;
      OfferStep(done, l, accepts, request, b);
      LogStep(calls, OffersTo(done, request, b), Offered(l, request, b));
      if !accepts(l, request) {
        declined := declined + {l};
      }
      calls := calls + [Offered(l, request, b)];
      todo, done := todo - {l}, done + {l};
    }
  }

  /** Offering `request` to the listener of each registration in turn: the calls made, one
      per registration, and the listeners that accepted. */
  method OfferEachAt(matched: set<(Path, nat)>, accepts: (nat, PermissionRequest) -> bool, request: PermissionRequest, b: Blessing)
    returns (accepted: set<nat>, calls: seq<RequestEvent>)
    ensures accepted == Accepted(matched, accepts, request)
    ensures |calls| == |matched| && Elements(calls) == OffersAt(matched, request, b)
  {
    accepted := {};
    calls := [];
    var todo, done := matched, {};
    while todo != {}
      invariant done <= matched && todo == matched - done
      invariant accepted == Accepted(done, accepts, request)
      invariant |calls| == |done| && Elements(calls) == OffersAt(done, request, b)
      decreases todo
    {
      var m :| m in todo;
      OfferAtStep(done, m, accepts, request, b);
      LogStep(calls, OffersAt(done, request, b), Offered(m.1, request, b));
      if accepts(m.1, request) {
        accepted := accepted + {m.1};
      }
      calls := calls + [Offered(m.1, request, b)];
      todo, done := todo - {m}, done + {m};
    }
  }

  /** Withdrawing `request` from each listener in turn: the calls made, one per listener. */
  method WithdrawEach(listeners: set<nat>, request: PermissionRequest, b: Blessing) returns (calls: seq<RequestEvent>)
    ensures |calls| == |listeners| && Elements(calls) == WithdrawalsFrom(listeners, request, b)
  {
    calls := [];
    var todo, done := listeners, {};
    while todo != {}
      invariant done <= listeners && todo == listeners - done
      invariant |calls| == |done| && Elements(calls) == WithdrawalsFrom(done, request, b)
      decreases todo
    {
      var l :| l in todo;
      WithdrawStep(done, l, request, b);
      LogStep(calls, WithdrawalsFrom(done, request, b), Withdrawn(l, request, b));
      calls := calls + [Withdrawn(l, request, b)];
      todo, done := todo - {l}, done + {l};
    }
  }

  /** What offering `request` with the blessing `b` does to the subscriptions and the call log:
      the listeners subscribed to its id are each offered it once and keep their subscription
      only when they accept it; when none is subscribed, the listener of every registration its
      path matches is offered it once, and those that accept subscribe. */
  predicate OfferLog(subs: set<(string, nat)>, subs': set<(string, nat)>, log: seq<RequestEvent>, log': seq<RequestEvent>,
                     registrations: set<(Path, nat)>, accepts: (nat, PermissionRequest) -> bool, request: PermissionRequest, b: Blessing)
    requires request.path.Some?
  {
    var subscribed := Subscribers(subs, request.id);
    var matched := Matching(registrations, request.path.value);
    if subscribed != {} then
      && subs' == subs - Tagged(request.id, Declined(subscribed, accepts, request))
      && LoggedAfter(log', log, OffersTo(subscribed, request, b), |subscribed|)
    else
      && subs' == subs + Tagged(request.id, Accepted(matched, accepts, request))
      && LoggedAfter(log', log, OffersAt(matched, request, b), |matched|)
  }

  /** The listener calls of onRequestUpdated for an admitted request, on the values of the
      subscriptions, the call log and the registrations. */
  method DeliverRequest(subs: set<(string, nat)>, log: seq<RequestEvent>, registrations: set<(Path, nat)>,
                 accepts: (nat, PermissionRequest) -> bool, request: PermissionRequest, b: Blessing)
    returns (subs': set<(string, nat)>, log': seq<RequestEvent>)
    requires request.path.Some?
    ensures OfferLog(subs, subs', log, log', registrations, accepts, request, b)
  {
    var subscribed := Subscribers(subs, request.id);
    var calls;
    if subscribed != {} {
      var declined;
      declined, calls := OfferEach(subscribed, accepts, request, b);
      subs' := subs - Tagged(request.id, declined);
    } else {
      var paths := GetAllPaths(request.path.value);
      var matched := set m | m in registrations && m.0.Some? && m.0.value in paths;
      var accepted;
      accepted, calls := OfferEachAt(matched, accepts, request, b);
      subs' := subs + Tagged(request.id, accepted);
    }
    LoggedCalls(log, calls, Elements(calls), |calls|);
    log' := log + calls;
  }

  /** After an offer the listeners subscribed to the request's id are the subscribed ones
      that accepted it, or, when none was subscribed, the matched listeners that accepted it;
      the subscriptions to every other request are as they were. */
  lemma OfferedSubscribers(subs: set<(string, nat)>, subs': set<(string, nat)>, log: seq<RequestEvent>, log': seq<RequestEvent>,
                           registrations: set<(Path, nat)>, accepts: (nat, PermissionRequest) -> bool, request: PermissionRequest, b: Blessing)
    requires request.path.Some?
    requires OfferLog(subs, subs', log, log', registrations, accepts, request, b)
    ensures var subscribed := Subscribers(subs, request.id);
      Subscribers(subs', request.id) ==
        if subscribed != {} then set l | l in subscribed && accepts(l, request)
        else Accepted(Matching(registrations, request.path.value), accepts, request)
    ensures forall x: (string, nat) :: x.0 != request.id ==> (x in subs' <==> x in subs)
  {
    var subscribed := Subscribers(subs, request.id);
    if subscribed != {} {
      forall l
        ensures l in Subscribers(subs', request.id) <==> l in subscribed && accepts(l, request)
      {
        assert (request.id, l) in subs' <==> (request.id, l) in subs && (request.id, l) !in Tagged(request.id, Declined(subscribed, accepts, request));
      }
    } else {
      var accepted := Accepted(Matching(registrations, request.path.value), accepts, request);
      forall l
        ensures l in Subscribers(subs', request.id) <==> l in accepted
      {
        assert (request.id, l) in subs' <==> (request.id, l) in subs || (request.id, l) in Tagged(request.id, accepted);
      }
    }
  }

  /** What withdrawing `request` with the blessing `b` does: every subscription to its id is
      dropped, and each listener that held one is told once. */
  predicate WithdrawLog(subs: set<(string, nat)>, subs': set<(string, nat)>, log: seq<RequestEvent>, log': seq<RequestEvent>,
                        request: PermissionRequest, b: Blessing)
  {
    var subscribed := Subscribers(subs, request.id);
    && subs' == subs - Tagged(request.id, subscribed)
    && LoggedAfter(log', log, WithdrawalsFrom(subscribed, request, b), |subscribed|)
  }

  /** The listener calls of onRequestRemoved, on the values of the subscriptions and the log. */
  method WithdrawRequest(subs: set<(string, nat)>, log: seq<RequestEvent>, request: PermissionRequest, b: Blessing)
    returns (subs': set<(string, nat)>, log': seq<RequestEvent>)
    ensures WithdrawLog(subs, subs', log, log', request, b)
  {
    var subscribed := Subscribers(subs, request.id);
    var calls := WithdrawEach(subscribed, request, b);
    subs' := subs - Tagged(request.id, subscribed);
    LoggedCalls(log, calls, Elements(calls), |calls|);
    log' := log + calls;
  }

  /** After a withdrawal nobody is subscribed to the request's id, and the subscriptions to
      every other request are as they were. */
  lemma WithdrawnSubscribers(subs: set<(string, nat)>, subs': set<(string, nat)>, log: seq<RequestEvent>, log': seq<RequestEvent>,
                             request: PermissionRequest, b: Blessing)
    requires WithdrawLog(subs, subs', log, log', request, b)
    ensures Subscribers(subs', request.id) == {}
    ensures forall x: (string, nat) :: x in subs' <==> x in subs && x.0 != request.id
  {
    forall x
      ensures x in subs' <==> x in subs && x.0 != request.id
    {
      assert x in Tagged(request.id, Subscribers(subs, request.id)) <==> x.0 == request.id && (request.id, x.1) in subs;
    }
  }

  /** The table cells bless(source) fills for the requests under `keys`. */
  function Sources(requests: map<string, PermissionRequest>, keys: set<string>, owner: string): set<(string, string)>
    requires keys <= requests.Keys
  {
    set k | k in keys :: (owner, requests[k].source)
  }

  /** `m'` keeps every entry of `m`. */
  predicate KeepsEntries<K, V(==)>(m: map<K, V>, m': map<K, V>) {
    forall k | k in m :: k in m' && m'[k] == m[k]
  }

  /** The onRequest calls offering `listener` each request under `keys`, with the blessing the
      table holds for the request's source. */
  function OffersOf(listener: nat, requests: map<string, PermissionRequest>, keys: set<string>, owner: string,
                    table: map<(string, string), Blessing>): set<RequestEvent>
    requires keys <= requests.Keys && Sources(requests, keys, owner) <= table.Keys
  {
    set k | k in keys :: Offered(listener, requests[k], table[(owner, requests[k].source)])
  }

  /** The subscriptions `listener` takes to the requests under `keys` it accepts. */
  function AcceptedKeys(listener: nat, accepts: (nat, PermissionRequest) -> bool, requests: map<string, PermissionRequest>,
                        keys: set<string>): set<(string, nat)>
    requires keys <= requests.Keys
  {
    set k | k in keys && accepts(listener, requests[k]) :: (k, listener)
  }

  lemma OffersOfStep(listener: nat, requests: map<string, PermissionRequest>, keys: set<string>, k: string, owner: string,
                     table: map<(string, string), Blessing>, table': map<(string, string), Blessing>)
    requires keys <= requests.Keys && k in requests && Sources(requests, keys, owner) <= table.Keys
    requires KeepsEntries(table, table') && (owner, requests[k].source) in table'
    ensures Sources(requests, keys + {k}, owner) == Sources(requests, keys, owner) + {(owner, requests[k].source)}
    ensures OffersOf(listener, requests, keys + {k}, owner, table') ==
      OffersOf(listener, requests, keys, owner, table) + {Offered(listener, requests[k], table'[(owner, requests[k].source)])}
  {
  }

  lemma AcceptedKeysStep(listener: nat, accepts: (nat, PermissionRequest) -> bool, requests: map<string, PermissionRequest>,
                         keys: set<string>, k: string)
    requires keys <= requests.Keys && k in requests
    ensures AcceptedKeys(listener, accepts, requests, keys + {k}) ==
      AcceptedKeys(listener, accepts, requests, keys) + (if accepts(listener, requests[k]) then {(k, listener)} else {})
  {
  }

  lemma KeepsEntriesTrans<K, V>(a: map<K, V>, b: map<K, V>, c: map<K, V>)
    requires KeepsEntries(a, b) && KeepsEntries(b, c)
    ensures KeepsEntries(a, c)
  {
  }

  /** The table grew from `t0` by the cells of the sources of the requests under `done`, and
      kept every other entry. */
  predicate TableGrown(requests: map<string, PermissionRequest>, done: set<string>, owner: string,
                       t0: map<(string, string), Blessing>, table: map<(string, string), Blessing>)
  {
    && done <= requests.Keys
    && KeepsEntries(t0, table) && table.Keys == t0.Keys + Sources(requests, done, owner)
  }

  lemma TableGrownStep(requests: map<string, PermissionRequest>, done: set<string>, owner: string,
                       t0: map<(string, string), Blessing>, table: map<(string, string), Blessing>,
                       table': map<(string, string), Blessing>, k: string)
    requires TableGrown(requests, done, owner, t0, table) && k in requests
    requires KeepsEntries(table, table') && table'.Keys == table.Keys + {(owner, requests[k].source)}
    ensures TableGrown(requests, done + {k}, owner, t0, table')
  {
    KeepsEntriesTrans(t0, table, table');
    assert Sources(requests, done + {k}, owner) == Sources(requests, done, owner) + {(owner, requests[k].source)};
  }

  /** The values addOnRequestListener's loop keeps, after offering `listener` the requests
      under `done`: the table grew by the cells of their sources, the listener subscribed to
      those it accepted, and one call went out per request. */
  predicate OfferingLog(listener: nat, accepts: (nat, PermissionRequest) -> bool, requests: map<string, PermissionRequest>,
                        done: set<string>, owner: string, t0: map<(string, string), Blessing>, table: map<(string, string), Blessing>,
                        s0: set<(string, nat)>, subs: set<(string, nat)>, calls: seq<RequestEvent>)
  {
    && TableGrown(requests, done, owner, t0, table)
    && subs == s0 + AcceptedKeys(listener, accepts, requests, done)
    && |calls| == |done| && Elements(calls) == OffersOf(listener, requests, done, owner, table)
  }

  /** Before any stored request is offered, nothing was offered. */
  lemma OfferingNone(listener: nat, accepts: (nat, PermissionRequest) -> bool, requests: map<string, PermissionRequest>,
                     owner: string, table: map<(string, string), Blessing>, subs: set<(string, nat)>)
    ensures OfferingLog(listener, accepts, requests, {}, owner, table, table, subs, subs, [])
  {
    assert Sources(requests, {}, owner) == {};
    assert AcceptedKeys(listener, accepts, requests, {}) == {};
    assert OffersOf(listener, requests, {}, owner, table) == {};
  }

  /** Once every stored request was offered, the table, the subscriptions and the logged
      calls are those of all the stored requests. */
  lemma OfferingDone(listener: nat, accepts: (nat, PermissionRequest) -> bool, requests: map<string, PermissionRequest>,
                     owner: string, t0: map<(string, string), Blessing>, table: map<(string, string), Blessing>,
                     s0: set<(string, nat)>, subs: set<(string, nat)>, calls: seq<RequestEvent>, log: seq<RequestEvent>)
    requires OfferingLog(listener, accepts, requests, requests.Keys, owner, t0, table, s0, subs, calls)
    ensures KeepsEntries(t0, table) && table.Keys == t0.Keys + Sources(requests, requests.Keys, owner)
    ensures subs == s0 + AcceptedKeys(listener, accepts, requests, requests.Keys)
    ensures LoggedAfter(log + calls, log, OffersOf(listener, requests, requests.Keys, owner, table), |requests.Keys|)
  {
    LoggedCalls(log, calls, OffersOf(listener, requests, requests.Keys, owner, table), |requests.Keys|);
  }

  /** Offering one more request keeps `OfferingLog`. */
  lemma OfferingStep(listener: nat, accepts: (nat, PermissionRequest) -> bool, requests: map<string, PermissionRequest>,
                     done: set<string>, owner: string, t0: map<(string, string), Blessing>,
                     table: map<(string, string), Blessing>, table': map<(string, string), Blessing>,
                     s0: set<(string, nat)>, subs: set<(string, nat)>, calls: seq<RequestEvent>, k: string)
    requires OfferingLog(listener, accepts, requests, done, owner, t0, table, s0, subs, calls)
    requires k in requests && k !in done
    requires KeepsEntries(table, table') && table'.Keys == table.Keys + {(owner, requests[k].source)}
    ensures OfferingLog(listener, accepts, requests, done + {k}, owner, t0, table', s0,
                        if accepts(listener, requests[k]) then subs + {(k, listener)} else subs,
                        calls + [Offered(listener, requests[k], table'[(owner, requests[k].source)])])
  {
    var x := Offered(listener, requests[k], table'[(owner, requests[k].source)]);
    TableGrownStep(requests, done, owner, t0, table, table', k);
    OffersOfStep(listener, requests, done, k, owner, table, table');
    AcceptedKeysStep(listener, accepts, requests, done, k);
    LogStep(calls, OffersOf(listener, requests, done, owner, table), x);
  }

  /** Adding the request under `k` to those looked at so far. */
  lemma RequestsAtStep(requests: map<string, PermissionRequest>, done: set<string>, k: string, path: string)
    requires done <= requests.Keys && k in requests
    ensures RequestsAt(requests, done + {k}, path) == RequestsAt(requests, done, path)
      + (if requests[k].path.Some? && path in AllPaths(requests[k].path.value) then {requests[k]} else {})
  {
  }

  /** The active requests left once cancelRequest has run for the paths under `done` of the
      row of `group`. */
  function RowLeft(a0: map<(string, string), RequestBuilder>, group: string, done: set<string>): map<(string, string), RequestBuilder> {
    map k | k in a0 && !(k.0 == group && k.1 in done) :: a0[k]
  }

  /** The builders of the row of `group` under the paths in `done`. */
  function RowBuilders(a0: map<(string, string), RequestBuilder>, group: string, done: set<string>): set<RequestBuilder>
    requires done <= RowPaths(a0, group)
  {
    set p | p in done :: a0[(group, p)]
  }

  /** Once the whole row is done, the row is gone and its builders were all cancelled. */
  lemma RowAll(a0: map<(string, string), RequestBuilder>, group: string)
    ensures RowLeft(a0, group, RowPaths(a0, group)) == map k | k in a0 && k.0 != group :: a0[k]
    ensures RowBuilders(a0, group, RowPaths(a0, group)) == set k | k in a0 && k.0 == group :: a0[k]
  {
    assert forall k | k in a0 && k.0 == group :: k.1 in RowPaths(a0, group);
  }

  lemma RowStep(a0: map<(string, string), RequestBuilder>, group: string, done: set<string>, p: string)
    requires done <= RowPaths(a0, group) && p in RowPaths(a0, group)
    ensures (group, p) in a0 && (group, p) in RowLeft(a0, group, done) <==> p !in done
    ensures RowLeft(a0, group, done) - {(group, p)} == RowLeft(a0, group, done + {p})
    ensures RowBuilders(a0, group, done + {p}) == RowBuilders(a0, group, done) + {a0[(group, p)]}
  {
  }

  /** The table row of a source: the source itself, or "root" for none. */
  function RowKey(source: Option<string>): string {
    source.GetOr(KEY_ROOT)
  }

  /** The id the constructor gives a blessing: the one supplied, or source + "_" + target
      (Java's string concatenation writing a null source as "null"). */
  function BlessingId(given: Option<string>, source: Option<string>, target: string): string {
    match given
    case Some(i) => i
    case None => source.GetOr("null") + "_" + target
  }

  /** `mBlessingsTable.remove(row, column)`. */
  function RemoveRow<V>(table: map<(string, string), V>, row: string, column: string): (t: map<(string, string), V>)
    ensures t.Keys == table.Keys - {(row, column)}
    ensures forall k | k in t :: t[k] == table[k]
  {
    table - {(row, column)}
  }

  /** removeBlessing as written: the row is the blessing's raw source, and a null row matches
      no stored row. */
  function RemoveRawRow<V>(table: map<(string, string), V>, source: Option<string>, column: string): (t: map<(string, string), V>)
    ensures source.Some? ==> t.Keys == table.Keys - {(source.value, column)}
    ensures source.None? ==> t == table
    ensures forall k | k in t :: k in table && t[k] == table[k]
  {
    if source.Some? then RemoveRow(table, source.value, column) else table
  }

  /** The root row of a root blessing survives removeBlessing as written; the row putBlessing
      used is cleared by the corrected removal. */
  lemma RootRowSurvivesRawRemoval<V>(table: map<(string, string), V>, target: string)
    requires (KEY_ROOT, target) in table
    ensures (KEY_ROOT, target) in RemoveRawRow(table, None, target)
    ensures (RowKey(None), target) !in RemoveRow(table, RowKey(None), target)
  {
  }

  /** A sequence listing each member of a set exactly once. */
  predicate Enumerates<T>(xs: seq<T>, s: set<T>) {
    && (forall i, j | 0 <= i < j < |xs| :: xs[i] != xs[j])
    && (set i | 0 <= i < |xs| :: xs[i]) == s
  }

  lemma EnumeratesSnoc<T>(xs: seq<T>, s: set<T>, x: T)
    requires Enumerates(xs, s) && x !in s
    ensures Enumerates(xs + [x], s + {x})
  {
    var ys := xs + [x];
    assert forall i | 0 <= i < |xs| :: ys[i] == xs[i];
    assert ys[|xs|] == x;
    assert (set i | 0 <= i < |ys| :: ys[i]) == (set i | 0 <= i < |xs| :: xs[i]) + {x};
  }

  /** The calls on the listeners of `fs`, each with the mask `m`. */
  function CallsWith(fs: set<(Path, nat)>, m: Mask): set<(nat, Mask)> {
    set g | g in fs :: (g.1, m)
  }

  /** The calls for one more listener are the calls so far and its own. */
  lemma CallsAdd(done: set<(Path, nat)>, f: (Path, nat), m: Mask)
    ensures CallsWith(done + {f}, m) == CallsWith(done, m) + {(f.1, m)}
  {
    var lhs := CallsWith(done + {f}, m);
    var rhs := CallsWith(done, m) + {(f.1, m)};
    forall c | c in lhs
      ensures c in rhs
    {
      var g :| g in done + {f} && c == (g.1, m);
      if g != f {
        assert g in done;
      }
    }
    assert (f.1, m) in lhs;
  }

  /** The calls onPermissionsChange makes for a path, when listeners are routed only to paths
      of the new table and a path of the table answers with its new value. */
  lemma RoutedCalls(p: Path, updated: map<Path, Mask>, nearest: set<(Path, Path)>,
                    listeners: set<(Path, nat)>, v: Mask)
    requires forall e | e in nearest :: e.0 in updated
    requires p in updated ==> v == updated[p]
    ensures (set f | f in listeners && (p, f.0) in nearest :: (f.1, v)) ==
      (if p in updated then set f | f in listeners && (p, f.0) in nearest :: (f.1, updated[p]) else {})
  {
    if p !in updated {
      forall f | f in listeners
        ensures (p, f.0) !in nearest
      {
        assert (p, f.0) in nearest ==> (p, f.0).0 in updated;
      }
    }
  }

  /** A cache and a routing rebuilt from `rules`: every path of the table the rules
      accumulate to is cached with its accumulated value, nothing else but possibly the null
      path is cached, and every listened path is routed to its nearest path of that table. */
  ghost predicate RebuiltFrom(cache: map<Path, Mask>, nearest: set<(Path, Path)>, listened: set<Path>,
                              rules: seq<Rule>)
  {
    && AllResolvable(rules)
    && (forall p | p in listened :: Resolvable(p))
    && var u := Accumulate(map[], rules);
       && (forall p | p in u :: p in cache && cache[p] == u[p])
       && cache.Keys <= u.Keys + {None}
       && nearest == NearestTable(listened, u.Keys)
  }

  /** The null path among the cached ones changes no resolution against them. */
  lemma RebuiltResolve(cache: map<Path, Mask>, nearest: set<(Path, Path)>, listened: set<Path>, rules: seq<Rule>, p: Path)
    requires RebuiltFrom(cache, nearest, listened, rules) && Resolvable(p)
    ensures NearestAncestor(p, cache.Keys) == Ok(Resolve(p, Accumulate(map[], rules).Keys))
  {
    var u := Accumulate(map[], rules);
    forall q
      ensures Some(q) in u.Keys <==> Some(q) in cache.Keys
    {
      if Some(q) in cache.Keys {
        assert Some(q) in u.Keys + {None};
      }
    }
    ResolveIgnoresNull(p, u.Keys, cache.Keys);
  }

  /** Listening to one more resolvable path, routed to its nearest cached path, keeps the
      state a refresh leaves. */
  lemma RebuiltListen(cache: map<Path, Mask>, nearest: set<(Path, Path)>, listened: set<Path>, rules: seq<Rule>, p: Path)
    requires RebuiltFrom(cache, nearest, listened, rules) && Resolvable(p)
    ensures NearestAncestor(p, cache.Keys).Ok?
    ensures var n := NearestAncestor(p, cache.Keys).value;
      RebuiltFrom(cache, nearest + (if n.Some? then {(n, p)} else {}), listened + {p}, rules)
  {
    RebuiltResolve(cache, nearest, listened, rules, p);
    NearestTableAdd(listened, Accumulate(map[], rules).Keys, p);
  }

  /** No longer listening to a resolvable path, and dropping its route, keeps the state a
      refresh leaves. */
  lemma RebuiltUnlisten(cache: map<Path, Mask>, nearest: set<(Path, Path)>, listened: set<Path>, rules: seq<Rule>, p: Path)
    requires RebuiltFrom(cache, nearest, listened, rules) && Resolvable(p)
    ensures NearestAncestor(p, cache.Keys).Ok?
    ensures RebuiltFrom(cache, nearest - {(NearestAncestor(p, cache.Keys).value, p)}, listened - {p}, rules)
  {
    RebuiltResolve(cache, nearest, listened, rules, p);
    NearestTableRemove(listened, Accumulate(map[], rules).Keys, p);
  }

  /** What the last loop of a refresh keeps once the paths `done` are notified: the new
      table stays cached, only the null path can join it, and only when notified, and the
      calls logged since `n0` are those `Notified` describes for `done`. */
  ghost predicate NotifiedState(cache: map<Path, Mask>, events: seq<(nat, Mask)>, n0: nat, done: set<Path>,
                                updated: map<Path, Mask>, nearest: set<(Path, Path)>, listeners: set<(Path, nat)>)
  {
    && (forall p | p in updated :: p in cache && cache[p] == updated[p])
    && cache.Keys <= updated.Keys + {None}
    && (None !in updated ==> (None in cache <==> None in done))
    && n0 <= |events|
    && Elements(events[n0..]) == Notified(done, updated, nearest, listeners)
  }

  /** onPermissionsChange on one more changed path keeps `NotifiedState`. */
  lemma NotifyStep(cache: map<Path, Mask>, cache': map<Path, Mask>, events: seq<(nat, Mask)>,
                   events': seq<(nat, Mask)>, n0: nat, done: set<Path>, p: Path, v: Mask,
                   updated: map<Path, Mask>, nearest: set<(Path, Path)>, listeners: set<(Path, nat)>)
    requires NotifiedState(cache, events, n0, done, updated, nearest, listeners)
    requires p !in done && (p in updated || p == None)
    requires forall e | e in nearest :: e.0 in updated
    requires p in cache ==> v == cache[p] && cache' == cache
    requires p !in cache ==> cache' == cache[p := v]
    requires |events'| >= |events| && events'[..|events|] == events
    requires Elements(events'[|events|..]) == set f | f in listeners && (p, f.0) in nearest :: (f.1, v)
    ensures NotifiedState(cache', events', n0, done + {p}, updated, nearest, listeners)
  {
    RoutedCalls(p, updated, nearest, listeners, v);
    assert events'[n0..] == events[n0..] + events'[|events|..];
    ElementsAppend(events[n0..], events'[|events|..]);
    NotifiedAdd(done, p, updated, nearest, listeners);
  }


  /** The manager state a notification cascade can change, as a value: the permission
      cache and routing, the rules of the last refresh, and the calls made on outside
      permission and blessing listeners. */
  datatype ManagerView = ManagerView(cache: map<Path, Mask>, nearest: set<(Path, Path)>, lastRules: seq<Rule>,
                                     permissionEvents: seq<(nat, Mask)>, blessingEvents: seq<BlessingEvent>)

  /** The calls that reach outside listeners among `calls`: onBlessingRemoved when `removal`,
      onBlessingUpdated otherwise. */
  function ObserverEvents(calls: set<(Blessing, Listener)>, removal: bool): set<BlessingEvent> {
    set c | c in calls && c.1.Observer? :: if removal then Removed(c.1.id, c.0) else Updated(c.1.id, c.0)
  }

  /** Some call among `calls` reaches the manager's listener, which refreshes the cache. */
  predicate Refreshes(calls: set<(Blessing, Listener)>) {
    exists c | c in calls :: c.1.ManagerLink?
  }

  /** From `v0` to `v` a cascade made the calls `calls`: the outside listeners among them
      were called, and nothing else was logged; the cache, the routing and the permission
      listener log changed only if one of them refreshed, and the logs only grew. */
  predicate ViewStep(v0: ManagerView, v: ManagerView, calls: set<(Blessing, Listener)>, removal: bool) {
    && v0.blessingEvents <= v.blessingEvents
    && Elements(v.blessingEvents[|v0.blessingEvents|..]) == ObserverEvents(calls, removal)
    && v0.permissionEvents <= v.permissionEvents
    && (!Refreshes(calls) ==>
          v.cache == v0.cache && v.nearest == v0.nearest && v.lastRules == v0.lastRules
          && v.permissionEvents == v0.permissionEvents)
  }

  /** A cascade that makes no call changes nothing. */
  lemma ViewStepNone(v: ManagerView, removal: bool)
    ensures ViewStep(v, v, {}, removal)
  {
    assert v.blessingEvents[|v.blessingEvents|..] == [];
  }

  /** Two cascades one after the other make the calls of both. */
  lemma ViewStepCompose(v0: ManagerView, v1: ManagerView, v2: ManagerView, c: set<(Blessing, Listener)>,
                        d: set<(Blessing, Listener)>, removal: bool)
    requires ViewStep(v0, v1, c, removal) && ViewStep(v1, v2, d, removal)
    ensures ViewStep(v0, v2, c + d, removal)
    ensures Refreshes(c + d) <==> Refreshes(c) || Refreshes(d)
  {
    var e0, e1, e2 := v0.blessingEvents, v1.blessingEvents, v2.blessingEvents;
    assert e2[|e0|..] == e1[|e0|..] + e2[|e1|..] by {
      assert e2 == e1 + e2[|e1|..];
      assert e1 == e0 + e1[|e0|..];
    }
    ElementsAppend(e1[|e0|..], e2[|e1|..]);
    assert ObserverEvents(c + d, removal) == ObserverEvents(c, removal) + ObserverEvents(d, removal);
    if Refreshes(c + d) {
      var x :| x in c + d && x.1.ManagerLink?;
    }
  }

  /** Part way through a cascade: since `v0` the calls `calls` were made (`ViewStep`), and if
      one of them refreshed, the cache and the routing were rebuilt from the rules `received`
      for the listened paths `listened`. */
  ghost predicate CascadeSoFar(v0: ManagerView, v: ManagerView, calls: set<(Blessing, Listener)>, removal: bool,
                               received: set<Rule>, listened: set<Path>) {
    && ViewStep(v0, v, calls, removal)
    && (Refreshes(calls) ==> Elements(v.lastRules) == received && RebuiltFrom(v.cache, v.nearest, listened, v.lastRules))
  }

  /** One cascade after another makes the calls of both. */
  lemma CascadeStep(v0: ManagerView, v1: ManagerView, v2: ManagerView, c: set<(Blessing, Listener)>,
                    d: set<(Blessing, Listener)>, removal: bool, received: set<Rule>, listened: set<Path>)
    requires CascadeSoFar(v0, v1, c, removal, received, listened)
    requires CascadeSoFar(v1, v2, d, removal, received, listened)
    ensures CascadeSoFar(v0, v2, c + d, removal, received, listened)
  {
    ViewStepCompose(v0, v1, v2, c, d, removal);
  }

  /** A parent link's call, followed by its child's cascade: the link's own call reaches no
      outside listener and does not refresh. */
  lemma LinkCascade(v0: ManagerView, v: ManagerView, b: Blessing, l: Listener, reach: set<(Blessing, Listener)>,
                    removal: bool, received: set<Rule>, listened: set<Path>)
    requires l.ParentLink? && CascadeSoFar(v0, v, reach, removal, received, listened)
    ensures CascadeSoFar(v0, v, {(b, l)} + reach, removal, received, listened)
  {
    ViewStepNone(v0, removal);
    assert ViewStep(v0, v0, {(b, l)}, removal) by {
      assert ObserverEvents({(b, l)}, removal) == {};
    }
    ViewStepCompose(v0, v0, v, {(b, l)}, reach, removal);
  }

  /** The listeners `ls`, each with the blessing `b` holding it. */
  function Held(b: Blessing, ls: set<Listener>): set<(Blessing, Listener)> {
    set l | l in ls :: (b, l)
  }

  lemma HeldAdd(b: Blessing, ls: set<Listener>, l: Listener)
    ensures Held(b, ls + {l}) == Held(b, ls) + {(b, l)}
  {
  }

  /** The longest chain length among `s`. */
  ghost function MaxDepth(s: set<Blessing>): nat
  {
    if s == {} then 0
    else
      var b :| b in s;
      var rest := MaxDepth(s - {b});
      if b.depth < rest then rest else b.depth
  }

  lemma {:induction false} DepthBounded(s: set<Blessing>, b: Blessing)
    requires b in s
    ensures b.depth <= MaxDepth(s)
    decreases s
  {
    var c :| c in s && MaxDepth(s) == (if c.depth < MaxDepth(s - {c}) then MaxDepth(s - {c}) else c.depth);
    if b != c {
      DepthBounded(s - {c}, b);
    }
  }

  /** The listeners of each registered blessing. */
  type ListenerMap = map<Blessing, set<Listener>>

  /** The registered blessings have finite parent chains within the registry, and a parent
      link is held by its child's parent, a blessing of the same manager. */
  ghost predicate Ordered(links: ListenerMap) {
    && (forall b | b in links :: b.Linked() && (b.parentBlessing != null ==>
                                                  b.parentBlessing in links && b.parentBlessing.manager == b.manager))
    && forall b | b in links :: forall l | l in links[b] && l.ParentLink? ::
         l.child in links && l.child.parentBlessing == b && l.child.manager == b.manager
  }

  lemma ChildOrdered(links: ListenerMap, b: Blessing, l: Listener)
    requires Ordered(links) && b in links && l in links[b] && l.ParentLink?
    ensures l.child in links && l.child.parentBlessing == b && l.child.manager == b.manager
    ensures b.depth < l.child.depth <= MaxDepth(links.Keys)
  {
    assert l.child.Linked();
    DepthBounded(links.Keys, l.child);
  }

  /** `b` and every blessing below it through the parent links it and its descendants
      hold. */
  ghost function Subtree(links: ListenerMap, b: Blessing): (r: set<Blessing>)
    requires Ordered(links) && b in links
    ensures b in r && r <= links.Keys
    decreases MaxDepth(links.Keys) - b.depth, 2
  {
    {b} + Below(links, b, links[b])
  }

  /** The blessings below the parent links among `ls`, listeners of `b`. */
  ghost function Below(links: ListenerMap, b: Blessing, ls: set<Listener>): (r: set<Blessing>)
    requires Ordered(links) && b in links && ls <= links[b]
    ensures r <= links.Keys
    decreases MaxDepth(links.Keys) - b.depth, 1
  {
    set l, d | l in ls && l.ParentLink? && d in ChildSubtree(links, b, l) :: d
  }

  /** The subtree of the child of the parent link `l`, a listener of `b`. */
  ghost function ChildSubtree(links: ListenerMap, b: Blessing, l: Listener): (r: set<Blessing>)
    requires Ordered(links) && b in links && l in links[b] && l.ParentLink?
    ensures r <= links.Keys
    decreases MaxDepth(links.Keys) - b.depth, 0
  {
    ChildOrdered(links, b, l);
    Subtree(links, l.child)
  }

  /** Every listener of every blessing of `ds`, with the blessing holding it. */
  function ReachOf(links: ListenerMap, ds: set<Blessing>): set<(Blessing, Listener)> {
    set d, l | d in ds && d in links && l in links[d] :: (d, l)
  }

  lemma ReachOfUnion(links: ListenerMap, a: set<Blessing>, b: set<Blessing>)
    ensures ReachOf(links, a + b) == ReachOf(links, a) + ReachOf(links, b)
  {
  }

  /** Every listener of every blessing of `b`'s subtree, with the blessing holding it: the
      calls a cascade from `b` makes. */
  ghost function Reach(links: ListenerMap, b: Blessing): set<(Blessing, Listener)>
    requires Ordered(links) && b in links
  {
    ReachOf(links, Subtree(links, b))
  }

  /** The calls a cascade from `b` makes through the listeners `ls` of `b`: each of them,
      and, below each parent link, the whole cascade of the child. */
  ghost function Called(links: ListenerMap, b: Blessing, ls: set<Listener>): set<(Blessing, Listener)>
    requires Ordered(links) && b in links && ls <= links[b]
  {
    Held(b, ls) + ReachOf(links, Below(links, b, ls))
  }

  /** The calls one listener `l` of `b` makes: its own, and a parent link's cascade. */
  ghost function Delivered(links: ListenerMap, b: Blessing, l: Listener): set<(Blessing, Listener)>
    requires Ordered(links) && b in links && l in links[b]
  {
    {(b, l)} + (if l.ParentLink? then (ChildOrdered(links, b, l); Reach(links, l.child)) else {})
  }

  lemma BelowAdd(links: ListenerMap, b: Blessing, done: set<Listener>, l: Listener)
    requires Ordered(links) && b in links && done <= links[b] && l in links[b]
    ensures l.ParentLink? ==> l.child in links
    ensures Below(links, b, done + {l}) == Below(links, b, done) + (if l.ParentLink? then Subtree(links, l.child) else {})
  {
    if l.ParentLink? {
      assert ChildSubtree(links, b, l) == Subtree(links, l.child);
    }
  }

  /** A cascade through `b`'s listeners is the calls of each of them. */
  lemma CalledAdd(links: ListenerMap, b: Blessing, done: set<Listener>, l: Listener)
    requires Ordered(links) && b in links && done <= links[b] && l in links[b]
    ensures Called(links, b, done + {l}) == Called(links, b, done) + Delivered(links, b, l)
  {
    BelowAdd(links, b, done, l);
    ReachOfUnion(links, Below(links, b, done), if l.ParentLink? then Subtree(links, l.child) else {});
    HeldAdd(b, done, l);
  }

  /** Before any listener, a cascade has made no call. */
  lemma CalledNone(links: ListenerMap, b: Blessing)
    requires Ordered(links) && b in links
    ensures Called(links, b, {}) == {}
  {
  }

  /** The cascade through all of `b`'s listeners reaches its whole subtree. */
  lemma CalledAll(links: ListenerMap, b: Blessing)
    requires Ordered(links) && b in links
    ensures Called(links, b, links[b]) == Reach(links, b)
  {
  }

  /** The blessings of a subtree descend from its root, which lies on each of their chains. */
  lemma {:induction false} SubtreeChain(links: ListenerMap, c: Blessing, d: Blessing)
    requires Ordered(links) && c in links && d in Subtree(links, c)
    ensures d.Linked() && c in d.Chain() && c.depth <= d.depth
    decreases MaxDepth(links.Keys) - c.depth
  {
    if d != c {
      var l :| l in links[c] && l.ParentLink? && d in ChildSubtree(links, c, l);
      ChildOrdered(links, c, l);
      SubtreeChain(links, l.child, d);
      d.ChainBelow(l.child);
    }
    d.ChainBelow(c);
  }

  /** Below its root, a subtree holds each blessing's parent, which holds its link. */
  lemma {:induction false} SubtreeParent(links: ListenerMap, c: Blessing, d: Blessing)
    requires Ordered(links) && c in links && d in Subtree(links, c) && d != c
    ensures d.parentBlessing != null && d.parentBlessing in Subtree(links, c)
    ensures ParentLink(d) in links[d.parentBlessing]
    decreases MaxDepth(links.Keys) - c.depth
  {
    var l :| l in links[c] && l.ParentLink? && d in ChildSubtree(links, c, l);
    ChildOrdered(links, c, l);
    if d != l.child {
      SubtreeParent(links, l.child, d);
      SubtreeNested(links, c, l);
    }
  }

  /** The subtree of a child lies in its parent's subtree. */
  lemma SubtreeNested(links: ListenerMap, c: Blessing, l: Listener)
    requires Ordered(links) && c in links && l in links[c] && l.ParentLink?
    ensures l.child in links && Subtree(links, l.child) <= Subtree(links, c)
  {
    ChildOrdered(links, c, l);
    assert ChildSubtree(links, c, l) == Subtree(links, l.child);
  }

  /** Two children of one blessing have subtrees with no blessing in common. */
  lemma SiblingCascadesApart(links: ListenerMap, c1: Blessing, c2: Blessing, d: Blessing)
    requires Ordered(links) && c1 in links && c2 in links && c1 != c2
    requires c1.parentBlessing != null && c1.parentBlessing == c2.parentBlessing
    requires d in Subtree(links, c1)
    ensures d !in Subtree(links, c2)
  {
    if d in Subtree(links, c2) {
      SubtreeChain(links, c1, d);
      SubtreeChain(links, c2, d);
      d.ChainLinear(c1, c2);
      var b := c1.parentBlessing;
      if c2 in c1.Chain() {
        assert c2 in b.Chain();
        b.ChainBelow(c2);
      } else {
        assert c1 in b.Chain();
        b.ChainBelow(c1);
      }
    }
  }

  /** A subtree depends only on the listeners of its own blessings. */
  lemma {:induction false} SubtreeAgrees(links: ListenerMap, other: ListenerMap, c: Blessing)
    requires Ordered(links) && Ordered(other) && c in links && links.Keys == other.Keys
    requires forall d | d in Subtree(links, c) :: other[d] == links[d]
    ensures Subtree(other, c) == Subtree(links, c)
    ensures Reach(other, c) == Reach(links, c)
    decreases MaxDepth(links.Keys) - c.depth
  {
    forall l | l in links[c] && l.ParentLink?
      ensures ChildSubtree(other, c, l) == ChildSubtree(links, c, l)
    {
      ChildOrdered(links, c, l);
      SubtreeNested(links, c, l);
      SubtreeAgrees(links, other, l.child);
    }
    assert Below(other, c, other[c]) == Below(links, c, links[c]);
  }

  /** The parent links of the blessings `r`. */
  function LinksTo(r: set<Blessing>): set<Listener> {
    set x | x in r :: ParentLink(x)
  }

  /** The listener sets once the blessings `r` are cut from their parents. */
  function Pruned(links: ListenerMap, r: set<Blessing>): (p: ListenerMap)
    ensures p.Keys == links.Keys
  {
    map d | d in links :: links[d] - LinksTo(r)
  }

  /** Cutting keeps the order. */
  lemma PrunedOrdered(links: ListenerMap, r: set<Blessing>)
    requires Ordered(links)
    ensures Ordered(Pruned(links, r))
  {
  }

  /** Cutting `r`, then `s`, cuts both. */
  lemma PrunedTwice(links: ListenerMap, r: set<Blessing>, s: set<Blessing>)
    ensures Pruned(Pruned(links, r), s) == Pruned(links, r + s)
  {
    assert LinksTo(r + s) == LinksTo(r) + LinksTo(s);
    var p, q := Pruned(Pruned(links, r), s), Pruned(links, r + s);
    forall d | d in links
      ensures p[d] == q[d]
    {
      assert p[d] == links[d] - LinksTo(r) - LinksTo(s);
    }
  }

  /** Cutting one blessing changes its parent's listeners only. */
  lemma PrunedOne(links: ListenerMap, b: Blessing)
    requires Ordered(links) && b in links
    ensures b.parentBlessing == null ==> Pruned(links, {b}) == links
    ensures b.parentBlessing != null ==>
      (b.parentBlessing in links && Pruned(links, {b}) == links[b.parentBlessing := links[b.parentBlessing] - {ParentLink(b)}])
  {
    assert LinksTo({b}) == {ParentLink(b)};
    forall d | d in links && d != b.parentBlessing
      ensures links[d] - {ParentLink(b)} == links[d]
    {
      if ParentLink(b) in links[d] {
        ChildOrdered(links, d, ParentLink(b));
      }
    }
  }

  /** A blessing `d` under a link `ParentLink(c)` of `b` still to come is neither `b` nor
      under a link of `b` already handled, and holds none of their links. */
  lemma ApartFromCut(links: ListenerMap, b: Blessing, done: set<Listener>, c: Blessing, d: Blessing)
    requires Ordered(links) && b in links && done <= links[b] && ParentLink(c) in links[b] && ParentLink(c) !in done
    requires c in links && d in Subtree(links, c)
    ensures var r := {b} + Below(links, b, done); d !in r && links[d] !! LinksTo(r)
  {
    var r := {b} + Below(links, b, done);
    ChildOrdered(links, b, ParentLink(c));
    SubtreeChain(links, c, d);
    forall x | x in r && ParentLink(x) in links[d]
      ensures false
    {
      ChildOrdered(links, d, ParentLink(x));
      if x != b {
        var m :| m in done && m.ParentLink? && x in ChildSubtree(links, b, m);
        ChildOrdered(links, b, m);
        if x != m.child {
          SubtreeParent(links, m.child, x);
          SiblingCascadesApart(links, c, m.child, d);
        }
      }
    }
    if d in r && d != b {
      var m :| m in done && m.ParentLink? && d in ChildSubtree(links, b, m);
      ChildOrdered(links, b, m);
      SiblingCascadesApart(links, c, m.child, d);
    }
  }

  /** Part way through `b`'s removal loop, once the links in `done` were handled: `b` and
      the subtrees under those links are cut, and the subtree under a link `l` still to come
      is as it was at the start. */
  lemma RemovalTurn(links: ListenerMap, b: Blessing, done: set<Listener>, l: Listener)
    requires Ordered(links) && b in links && done <= links[b] && l in links[b] && l !in done
    ensures var r := {b} + Below(links, b, done);
      var p := Pruned(links, r);
      && Ordered(p) && l in p[b]
      && (l.ParentLink? ==>
            (l.child in links && Subtree(p, l.child) == Subtree(links, l.child)
             && Reach(p, l.child) == Reach(links, l.child) && r !! Subtree(links, l.child)))
      && r + (if l.ParentLink? then Subtree(links, l.child) else {}) == {b} + Below(links, b, done + {l})
  {
    var r := {b} + Below(links, b, done);
    var p := Pruned(links, r);
    PrunedOrdered(links, r);
    BelowAdd(links, b, done, l);
    if l.ParentLink? {
      var c := l.child;
      ChildOrdered(links, b, l);
      forall d | d in Subtree(links, c)
        ensures p[d] == links[d] && d !in r
      {
        ApartFromCut(links, b, done, c, d);
      }
      SubtreeAgrees(links, p, c);
    }
  }

  /** Cutting nothing changes nothing. */
  lemma PrunedNone(links: ListenerMap)
    ensures Pruned(links, {}) == links
  {
    assert LinksTo({}) == {};
    forall d | d in links
      ensures Pruned(links, {})[d] == links[d]
    {
    }
  }

  /** The blessings below one listener: its child's subtree, for a parent link. */
  lemma BelowOne(links: ListenerMap, b: Blessing, l: Listener)
    requires Ordered(links) && b in links && l in links[b]
    ensures l.ParentLink? ==> l.child in links
    ensures Below(links, b, {l}) == if l.ParentLink? then Subtree(links, l.child) else {}
  {
    BelowAdd(links, b, {}, l);
    assert {} + {l} == {l};
  }

  /** One loop turn of `b`'s removal, as `RemovalTurn`, stated for the calls the turn makes
      on the listener map `p` it starts from: the cut it makes, cut from `p`, extends the cut
      made so far; the blessings it cuts are new; and its calls extend those made so far. */
  lemma RemovalStep(links: ListenerMap, w: map<Blessing, seq<StoreWrite>>, e: StoreWrite, b: Blessing,
                    done: set<Listener>, l: Listener)
    requires Ordered(links) && b in links && done <= links[b] && l in links[b] && l !in done
    requires b !in Below(links, b, done)
    ensures var p := Pruned(links, {b} + Below(links, b, done));
      && Ordered(p) && l in p[b]
      && var cut := Below(p, b, {l});
         && Pruned(p, cut) == Pruned(links, {b} + Below(links, b, done + {l}))
         && Appended(Appended(w, Below(links, b, done), e), cut, e) == Appended(w, Below(links, b, done + {l}), e)
         && b !in Below(links, b, done + {l})
         && Called(links, b, done + {l}) == Called(links, b, done) + Delivered(p, b, l)
  {
    var p := Pruned(links, {b} + Below(links, b, done));
    RemovalCut(links, b, done, l);
    var cut := Below(p, b, {l});
    CalledAdd(links, b, done, l);
    AppendedTwice(w, Below(links, b, done), cut, e);
    if l.ParentLink? {
      ChildOrdered(links, b, l);
      assert Delivered(p, b, l) == Delivered(links, b, l);
    }
  }

  /** The cut of one loop turn of `b`'s removal, on the listener map `p` the turn starts
      from, extends the cut made so far. */
  lemma RemovalCut(links: ListenerMap, b: Blessing, done: set<Listener>, l: Listener)
    requires Ordered(links) && b in links && done <= links[b] && l in links[b] && l !in done
    requires b !in Below(links, b, done)
    ensures var p := Pruned(links, {b} + Below(links, b, done));
      && Ordered(p) && l in p[b]
      && var cut := Below(p, b, {l});
         && Below(links, b, done + {l}) == Below(links, b, done) + cut && Below(links, b, done) !! cut
         && Pruned(p, cut) == Pruned(links, {b} + Below(links, b, done + {l}))
         && b !in Below(links, b, done + {l})
         && (l.ParentLink? ==> l.child in links && Reach(p, l.child) == Reach(links, l.child))
  {
    var r := {b} + Below(links, b, done);
    var p := Pruned(links, r);
    RemovalTurn(links, b, done, l);
    BelowOne(p, b, l);
    var cut := Below(p, b, {l});
    BelowAdd(links, b, done, l);
    assert Below(links, b, done + {l}) == Below(links, b, done) + cut;
    PrunedTwice(links, r, cut);
  }

  /** Once the blessings `s` are cut from their parents, a cascade from a blessing outside
      `s` never enters `s`. */
  lemma {:induction false} PrunedStaysOut(links: ListenerMap, s: set<Blessing>, c: Blessing)
    requires Ordered(links) && c in links && c !in s
    ensures Ordered(Pruned(links, s)) && Subtree(Pruned(links, s), c) !! s
    decreases MaxDepth(links.Keys) - c.depth
  {
    var p := Pruned(links, s);
    PrunedOrdered(links, s);
    forall l: Listener | l in p[c] && l.ParentLink?
      ensures ChildSubtree(p, c, l) !! s
    {
      ChildOrdered(p, c, l);
      assert l.child !in s by {
        assert l == ParentLink(l.child) && l !in LinksTo(s);
      }
      PrunedStaysOut(links, s, l.child);
    }
  }

  /** A blessing below `d` in a subtree is in that subtree. */
  lemma {:induction false} SubtreeClosed(links: ListenerMap, b: Blessing, d: Blessing)
    requires Ordered(links) && b in links && d in Subtree(links, b)
    ensures Subtree(links, d) <= Subtree(links, b)
    decreases MaxDepth(links.Keys) - b.depth
  {
    if d != b {
      var m :| m in links[b] && m.ParentLink? && d in ChildSubtree(links, b, m);
      ChildOrdered(links, b, m);
      SubtreeNested(links, b, m);
      SubtreeClosed(links, m.child, d);
    }
  }

  /** Once a whole subtree is cut, each of its blessings reaches only itself. */
  lemma RevokedAlone(links: ListenerMap, b: Blessing, d: Blessing)
    requires Ordered(links) && b in links && d in Subtree(links, b)
    ensures Ordered(Pruned(links, Subtree(links, b)))
    ensures Subtree(Pruned(links, Subtree(links, b)), d) == {d}
  {
    var s := Subtree(links, b);
    var p := Pruned(links, s);
    PrunedOrdered(links, s);
    forall l: Listener | l in p[d] && l.ParentLink?
      ensures l.child !in s
    {
      assert l == ParentLink(l.child) && l !in LinksTo(s);
    }
    forall l: Listener | l in links[d] && l.ParentLink?
      ensures l.child in s
    {
      SubtreeNested(links, d, l);
      SubtreeClosed(links, b, d);
    }
    assert Below(p, d, p[d]) == {};
  }

  /** The write logs, with `e` appended to the log of every blessing of `s`. */
  function Appended(w: map<Blessing, seq<StoreWrite>>, s: set<Blessing>, e: StoreWrite): (r: map<Blessing, seq<StoreWrite>>)
    ensures r.Keys == w.Keys
  {
    map d | d in w :: if d in s then w[d] + [e] else w[d]
  }

  lemma AppendedNone(w: map<Blessing, seq<StoreWrite>>, e: StoreWrite)
    ensures Appended(w, {}, e) == w
  {
  }

  /** Appending to two disjoint sets of logs, one after the other, appends to both. */
  lemma AppendedTwice(w: map<Blessing, seq<StoreWrite>>, s: set<Blessing>, t: set<Blessing>, e: StoreWrite)
    requires s !! t
    ensures Appended(Appended(w, s, e), t, e) == Appended(w, s + t, e)
  {
  }

  class Blessing {
    const manager: PermissionManager
    const id: string
    const source: Option<string>
    const target: string
    /** The blessing this one was granted from; null for a root blessing, or when the source
        blessing was not yet known to the manager. */
    const parentBlessing: Blessing?
    const permissionTree: PermissionTree
    /** The length of the parent chain. */
    ghost const depth: nat

    var listeners: set<Listener>
    /** A snapshot of the record has arrived. */
    var synched: bool
    var permissions: map<Path, Mask>
    /** The writes made to the store record, in order. */
    ghost var writes: seq<StoreWrite>

    /** The parent blessing, as a set. */
    function ParentSet(): set<Blessing> {
      if parentBlessing == null then {} else {parentBlessing}
    }

    /** The parent chain is finite. */
    ghost predicate Linked()
      decreases depth
    {
      parentBlessing != null ==> parentBlessing.depth < depth && parentBlessing.Linked()
    }

    /** The blessings of the chain, this one included. */
    ghost function Chain(): set<Blessing>
      requires Linked()
      decreases depth
    {
      {this} + (if parentBlessing == null then {} else parentBlessing.Chain())
    }

    /** descendantOf(t): this blessing or one above it targets `t`. */
    predicate DescendantOf(t: string)
      requires Linked()
      decreases depth
    {
      target == t || (parentBlessing != null && parentBlessing.DescendantOf(t))
    }

    /** A blessing of the chain is no deeper, and its own chain is part of this one. */
    lemma {:induction false} ChainBelow(x: Blessing)
      requires Linked() && x in Chain()
      ensures x.Linked() && x.depth <= depth && x.Chain() <= Chain()
      decreases depth
    {
      if x != this {
        parentBlessing.ChainBelow(x);
      }
    }

    /** Any two blessings of a chain lie on one another's chains, one way or the other. */
    lemma {:induction false} ChainLinear(x: Blessing, y: Blessing)
      requires Linked() && x in Chain() && y in Chain()
      ensures x.Linked() && y.Linked() && (x in y.Chain() || y in x.Chain())
      decreases depth
    {
      ChainBelow(x);
      ChainBelow(y);
      if x != this && y != this {
        parentBlessing.ChainLinear(x, y);
      }
    }

    /** descendantOf(t) holds exactly when some blessing of the chain targets `t`. */
    lemma {:induction false} DescendantOfChain(t: string)
      requires Linked()
      ensures DescendantOf(t) <==> exists b | b in Chain() :: b.target == t
      decreases depth
    {
      if parentBlessing != null {
        parentBlessing.DescendantOfChain(t);
      }
    }

    /** The private constructor: the id written, the source written once and the parent
        looked up by it, the target written, and the blessing put into the manager's tables.
        The parent's listener registration calls back into this blessing, which has no
        listeners yet, so the callback does nothing. */
    constructor Init(pm: PermissionManager, given: Option<string>, source: Option<string>, target: string)
      requires pm.Registry()
      modifies pm`Blessings, pm`blessings, pm`table, pm.Blessings`listeners
      ensures pm.Registry() && pm.Registered(this, RowKey(source), target) && fresh(permissionTree)
      ensures id == BlessingId(given, source, target)
      ensures this.source == source && this.target == target
      ensures parentBlessing == (if source.Some? && source.value in old(pm.blessings)
                                 then old(pm.blessings)[source.value] else null)
    {
      var ident := BlessingId(given, source, target);
      var parent: Blessing? := if source.Some? && source.value in pm.blessings then pm.blessings[source.value] else null;
      manager := pm;
      id := ident;
      this.source := source;
      this.target := target;
      parentBlessing := parent;
      depth := if parent == null then 0 else parent.depth + 1;
      permissionTree := new PermissionTree.Empty(if parent == null then null else parent.permissionTree);
      listeners := {};
      synched := false;
      permissions := map[];
      writes := [SetField("id", ident)]
                + (if source.Some? then [SetField("source", source.value)] else [])
                + [SetField("target", target)];
      new;
      pm.Register(this, source, target);
    }

    /** create(pm, source, target): the blessing already stored for (source, target), or a
        new one with id source + "_" + target. */
    static method Create(pm: PermissionManager, source: string, target: string) returns (b: Blessing)
      requires pm.Registry()
      modifies pm`Blessings, pm`blessings, pm`table, pm.Blessings`listeners
      ensures pm.Registry() && b in pm.Blessings
      ensures pm.table == old(pm.table)[(source, target) := b]
      ensures (source, target) in old(pm.table) ==> b == old(pm.table[(source, target)]) && pm.Unchanged()
      ensures (source, target) !in old(pm.table) ==>
        && pm.Registered(b, source, target)
        && b.id == source + "_" + target && b.source == Some(source) && b.target == target
    {
      var existing := pm.GetBlessing(Some(source), target);
      if existing.Some? {
        return existing.value;
      }
      b := new Blessing.Init(pm, None, Some(source), target);
    }

    /** createRoot(pm, target): the root blessing of `target`, whose id is its target. */
    static method CreateRoot(pm: PermissionManager, target: string) returns (b: Blessing)
      requires pm.Registry()
      modifies pm`Blessings, pm`blessings, pm`table, pm.Blessings`listeners
      ensures pm.Registry() && b in pm.Blessings
      ensures pm.table == old(pm.table)[(KEY_ROOT, target) := b]
      ensures (KEY_ROOT, target) in old(pm.table) ==> b == old(pm.table[(KEY_ROOT, target)]) && pm.Unchanged()
      ensures (KEY_ROOT, target) !in old(pm.table) ==>
        && pm.Registered(b, KEY_ROOT, target)
        && b.id == target && b.source == None && b.target == target && b.parentBlessing == null
    {
      var existing := pm.GetBlessing(None, target);
      if existing.Some? {
        return existing.value;
      }
      b := new Blessing.Init(pm, Some(target), None, target);
    }

    /** fromSnapshot(pm, record): the blessing stored for the record's (source, target), or a
        new one under the record's key. */
    static method FromSnapshot(pm: PermissionManager, record: BlessingRecord) returns (b: Blessing)
      requires pm.Registry()
      modifies pm`Blessings, pm`blessings, pm`table, pm.Blessings`listeners
      ensures pm.Registry() && b in pm.Blessings
      ensures var row := (RowKey(record.source), record.target);
        && pm.table == old(pm.table)[row := b]
        && (row in old(pm.table) ==> b == old(pm.table[row]) && pm.Unchanged())
        && (row !in old(pm.table) ==>
              && pm.Registered(b, row.0, row.1)
              && b.id == record.key && b.source == record.source && b.target == record.target)
    {
      var existing := pm.GetBlessing(record.source, record.target);
      if existing.Some? {
        return existing.value;
      }
      b := new Blessing.Init(pm, Some(record.key), record.source, record.target);
    }

    /** bless(t): the blessing this one already granted to `t`; otherwise a refusal when `t`
        is already in the chain, or a new grant from this blessing's id to `t`. */
    method Bless(t: string) returns (r: Result<Blessing, BlessError>)
      requires manager.Registry() && this in manager.Blessings
      modifies manager`Blessings, manager`blessings, manager`table, manager.Blessings`listeners
      ensures manager.Registry()
      ensures (id, t) in old(manager.table) ==> r == Ok(old(manager.table[(id, t)])) && manager.Unchanged()
      ensures (id, t) !in old(manager.table) && DescendantOf(t) ==> r == Err(TargetInChain) && manager.Unchanged()
      ensures (id, t) !in old(manager.table) && !DescendantOf(t) ==>
        && r.Ok? && manager.Registered(r.value, id, t) && manager.table == old(manager.table)[(id, t) := r.value]
        && r.value.id == id + "_" + t && r.value.source == Some(id) && r.value.target == t
    {
      var existing := manager.GetBlessing(Some(id), t);
      if existing.Some? {
        return Ok(existing.value);
      }
      assert Linked() by {
        manager.RegisteredLinked(this);
      }
      if DescendantOf(t) {
        return Err(TargetInChain);
      }
      var b := Create(manager, id, t);
      return Ok(b);
    }

    /** notifyListeners(): onBlessingUpdated(this) on every listener, in the iteration
        order of the listener set. Parent links pass the call on to their child, so every
        listener of every blessing below this one is called once. */
    method NotifyListeners()
      requires this in manager.Blessings && manager.KeysResolvable() && Ordered(manager.Listening())
      modifies manager`cache, manager`nearest, manager`permissionEvents, manager`lastRules, manager`blessingEvents
      ensures manager.Listening() == old(manager.Listening())
      ensures manager.ReceivedRules() == old(manager.ReceivedRules()) && manager.ListenedPaths() == old(manager.ListenedPaths())
      ensures manager.CascadedFrom(old(manager.CurrentView()), Reach(manager.Listening(), this), false)
      decreases MaxDepth(manager.Blessings) - depth, 1
    {
      ghost var v0 := manager.CurrentView();
      ghost var links := manager.Listening();
      ViewStepNone(v0, false);
      CalledNone(links, this);
      NotifyEach(links, v0, manager.ReceivedRules(), manager.ListenedPaths(), {}, listeners);
      CalledAll(links, this);
    }

    /** The loop of notifyListeners() as a recursion over the listeners `todo` not yet
        called; the calls so far are those of the listeners `done`. */
    method NotifyEach(ghost links: ListenerMap, ghost v0: ManagerView, ghost received: set<Rule>, ghost listened: set<Path>,
                      ghost done: set<Listener>, todo: set<Listener>)
      requires this in manager.Blessings && manager.Listening() == links && Ordered(links)
      requires todo <= links[this] && done == links[this] - todo
      requires manager.ReceivedRules() == received && manager.ListenedPaths() == listened && manager.KeysResolvable()
      requires CascadeSoFar(v0, manager.CurrentView(), Called(links, this, done), false, received, listened)
      modifies manager`cache, manager`nearest, manager`permissionEvents, manager`lastRules, manager`blessingEvents
      ensures manager.Listening() == links && manager.KeysResolvable()
      ensures manager.ReceivedRules() == received && manager.ListenedPaths() == listened
      ensures CascadeSoFar(v0, manager.CurrentView(), Called(links, this, links[this]), false, received, listened)
      decreases MaxDepth(manager.Blessings) - depth, 1, todo
    {
      if todo == {} {
        assert done == links[this];
        return;
      }
      var l :| l in todo;
      ghost var v1 := manager.CurrentView();
      Deliver(l);
      CalledAdd(links, this, done, l);
      CascadeStep(v0, v1, manager.CurrentView(), Called(links, this, done), Delivered(links, this, l), false, received, listened);
      NotifyEach(links, v0, received, listened, done + {l}, todo - {l});
    }

    /** l.onBlessingUpdated(this): a parent link relinks its child's tree to this tree (it
        already is) and notifies the child's listeners, the manager's listener refreshes the
        cache, and an outside listener is called. */
    method Deliver(l: Listener)
      requires this in manager.Blessings && l in listeners && manager.KeysResolvable() && Ordered(manager.Listening())
      modifies manager`cache, manager`nearest, manager`permissionEvents, manager`lastRules, manager`blessingEvents
      ensures manager.Listening() == old(manager.Listening())
      ensures manager.ReceivedRules() == old(manager.ReceivedRules()) && manager.ListenedPaths() == old(manager.ListenedPaths())
      ensures manager.CascadedFrom(old(manager.CurrentView()), Delivered(manager.Listening(), this, l), false)
      decreases MaxDepth(manager.Blessings) - depth, 0
    {
      var pm := manager;
      ghost var v0 := pm.CurrentView();
      ghost var links := pm.Listening();
      match l
      case ParentLink(child) =>
        ChildOrdered(links, this, l);
        child.NotifyListeners();
        LinkCascade(v0, pm.CurrentView(), this, l, Reach(links, child), false, pm.ReceivedRules(), pm.ListenedPaths());
      case ManagerLink =>
        pm.OnBlessingChanged(this, false);
      case Observer(o) =>
        pm.CallObserver(Updated(o, this));
    }

    /** revoke(): this blessing leaves its parent's listeners, and every listener it holds,
        taken from a copy of the set, is told of the removal: a child's parent link revokes
        the child, the manager's listener refreshes the cache, an outside listener is
        called. Then the rules record is removed. So the blessings below this one, this one
        included, are cut from their parents, each removes its rules once, and every listener
        any of them held was called once. */
    method Revoke()
      requires this in manager.Blessings && manager.KeysResolvable() && Ordered(manager.Listening())
      modifies manager.Blessings`listeners, manager.Blessings`writes
      modifies manager`cache, manager`nearest, manager`permissionEvents, manager`lastRules, manager`blessingEvents
      ensures manager.Revoked(old(manager.Listening()), old(manager.Writes()), old(manager.CurrentView()), this,
                              old(manager.ReceivedRules()), old(manager.ListenedPaths()))
      ensures old(manager.Registry()) ==> manager.Registry()
      decreases MaxDepth(manager.Blessings) - depth, 3
    {
      var pm := manager;
      ghost var v0 := pm.CurrentView();
      ghost var links := pm.Listening();
      ghost var w0 := pm.Writes();
      ghost var received, listened := pm.ReceivedRules(), pm.ListenedPaths();
      Detach();
      TellListeners(links, w0, v0, received, listened);
      RemoveRulesRecord(links, w0, v0, received, listened);
    }

    /** The loop of revoke(): onBlessingRemoved(this) on every listener, in the iteration
        order of a copy of the listener set. */
    method TellListeners(ghost links: ListenerMap, ghost w0: map<Blessing, seq<StoreWrite>>, ghost v0: ManagerView,
                         ghost received: set<Rule>, ghost listened: set<Path>)
      requires Ordered(links) && this in links && listeners == links[this]
      requires manager.Revoking(links, w0, v0, this, {}, received, listened)
      modifies manager.Blessings`listeners, manager.Blessings`writes
      modifies manager`cache, manager`nearest, manager`permissionEvents, manager`lastRules, manager`blessingEvents
      ensures manager.Revoking(links, w0, v0, this, links[this], received, listened)
      ensures old(manager.Registry()) ==> manager.Registry()
      decreases MaxDepth(manager.Blessings) - depth, 2
    {
      TellEach(links, w0, v0, {}, listeners, received, listened);
    }

    /** The loop of revoke() as a recursion over the listeners `todo` not yet told. */
    method TellEach(ghost links: ListenerMap, ghost w0: map<Blessing, seq<StoreWrite>>, ghost v0: ManagerView,
                    ghost done: set<Listener>, todo: set<Listener>, ghost received: set<Rule>, ghost listened: set<Path>)
      requires Ordered(links) && this in links && todo <= links[this] && done == links[this] - todo
      requires manager.Revoking(links, w0, v0, this, done, received, listened)
      modifies manager.Blessings`listeners, manager.Blessings`writes
      modifies manager`cache, manager`nearest, manager`permissionEvents, manager`lastRules, manager`blessingEvents
      ensures manager.Revoking(links, w0, v0, this, links[this], received, listened)
      ensures old(manager.Registry()) ==> manager.Registry()
      decreases MaxDepth(manager.Blessings) - depth, 2, todo
    {
      if todo == {} {
        assert done == links[this];
        return;
      }
      var l :| l in todo;
      RemovalLoopTurn(l, links, w0, v0, done, received, listened);
      TellEach(links, w0, v0, done + {l}, todo - {l}, received, listened);
    }

    /** The first step of revoke(): parentBlessing.removeListener(parentListener). */
    method Detach()
      requires this in manager.Blessings && manager.KeysResolvable() && Ordered(manager.Listening())
      modifies ParentSet()`listeners
      ensures listeners == old(listeners)
      ensures old(manager.Registry()) ==> manager.Registry()
      ensures manager.Revoking(old(manager.Listening()), old(manager.Writes()), old(manager.CurrentView()), this, {},
                               old(manager.ReceivedRules()), old(manager.ListenedPaths()))
    {
      ghost var links := manager.Listening();
      ghost var v0 := manager.CurrentView();
      PrunedOne(links, this);
      if parentBlessing != null {
        var _ := parentBlessing.RemoveListener(ParentLink(this));
      }
      assert {this} + Below(links, this, {}) == {this};
      ViewStepNone(v0, true);
      CalledNone(links, this);
      AppendedNone(manager.Writes(), RemoveRules(None));
    }

    /** A store write of this blessing's, logged; nothing another blessing or the manager
        holds changes. */
    method LogWrite(e: StoreWrite)
      requires this in manager.Blessings
      modifies this`writes
      ensures writes == old(writes) + [e]
      ensures manager.Writes() == Appended(old(manager.Writes()), {this}, e)
      ensures manager.Listening() == old(manager.Listening()) && manager.CurrentView() == old(manager.CurrentView())
      ensures manager.ReceivedRules() == old(manager.ReceivedRules()) && manager.ListenedPaths() == old(manager.ListenedPaths())
      ensures manager.KeysResolvable() == old(manager.KeysResolvable())
      ensures old(manager.Registry()) ==> manager.Registry()
    {
      writes := writes + [e];
    }

    /** The last step of revoke(): rulesRef.removeValue(), once every listener was told. */
    method RemoveRulesRecord(ghost links: ListenerMap, ghost w0: map<Blessing, seq<StoreWrite>>, ghost v0: ManagerView,
                             ghost received: set<Rule>, ghost listened: set<Path>)
      requires Ordered(links) && this in links
      requires manager.Revoking(links, w0, v0, this, links[this], received, listened)
      modifies this`writes
      ensures writes == old(writes) + [RemoveRules(None)]
      ensures manager.Revoked(links, w0, v0, this, received, listened)
      ensures old(manager.Registry()) ==> manager.Registry()
    {
      var e := RemoveRules(None);
      LogWrite(e);
      AppendedTwice(w0, Below(links, this, links[this]), {this}, e);
      assert Below(links, this, links[this]) + {this} == Subtree(links, this);
      CalledAll(links, this);
    }

    /** One turn of revoke's loop: the listener `l`, not yet told, is told of the removal. */
    method RemovalLoopTurn(l: Listener, ghost links: ListenerMap, ghost w0: map<Blessing, seq<StoreWrite>>,
                           ghost v0: ManagerView, ghost done: set<Listener>, ghost received: set<Rule>, ghost listened: set<Path>)
      requires Ordered(links) && this in links && done <= links[this] && l in links[this] && l !in done
      requires manager.Revoking(links, w0, v0, this, done, received, listened)
      modifies manager.Blessings`listeners, manager.Blessings`writes
      modifies manager`cache, manager`nearest, manager`permissionEvents, manager`lastRules, manager`blessingEvents
      ensures manager.Revoking(links, w0, v0, this, done + {l}, received, listened)
      ensures old(manager.Registry()) ==> manager.Registry()
      decreases MaxDepth(manager.Blessings) - depth, 1
    {
      var pm := manager;
      ghost var v1 := pm.CurrentView();
      RemovalStep(links, w0, RemoveRules(None), this, done, l);
      ghost var p := pm.Listening();
      DeliverRemoval(l);
      CascadeStep(v0, v1, pm.CurrentView(), Called(links, this, done), Delivered(p, this, l), true, received, listened);
    }

    /** l.onBlessingRemoved(this): a parent link revokes its child, the manager's listener
        refreshes the cache, and an outside listener is called. */
    method DeliverRemoval(l: Listener)
      requires this in manager.Blessings && l in listeners && manager.KeysResolvable() && Ordered(manager.Listening())
      modifies manager.Blessings`listeners, manager.Blessings`writes
      modifies manager`cache, manager`nearest, manager`permissionEvents, manager`lastRules, manager`blessingEvents
      ensures manager.Listening() == Pruned(old(manager.Listening()), Below(old(manager.Listening()), this, {l}))
      ensures manager.Writes() == Appended(old(manager.Writes()), Below(old(manager.Listening()), this, {l}), RemoveRules(None))
      ensures manager.ReceivedRules() == old(manager.ReceivedRules()) && manager.ListenedPaths() == old(manager.ListenedPaths())
      ensures manager.CascadedFrom(old(manager.CurrentView()), Delivered(old(manager.Listening()), this, l), true)
      ensures old(manager.Registry()) ==> manager.Registry()
      decreases MaxDepth(manager.Blessings) - depth, 0, 1
    {
      if l.ParentLink? {
        RevokeChild(l);
      } else {
        ghost var links := manager.Listening();
        ghost var w0 := manager.Writes();
        BelowOne(links, this, l);
        TellRemoval(l);
        PrunedNone(links);
        AppendedNone(w0, RemoveRules(None));
      }
    }

    /** A parent link told of the removal revokes its child. */
    method RevokeChild(l: Listener)
      requires this in manager.Blessings && l in listeners && manager.KeysResolvable() && Ordered(manager.Listening())
      requires l.ParentLink?
      modifies manager.Blessings`listeners, manager.Blessings`writes
      modifies manager`cache, manager`nearest, manager`permissionEvents, manager`lastRules, manager`blessingEvents
      ensures manager.Listening() == Pruned(old(manager.Listening()), Below(old(manager.Listening()), this, {l}))
      ensures manager.Writes() == Appended(old(manager.Writes()), Below(old(manager.Listening()), this, {l}), RemoveRules(None))
      ensures manager.ReceivedRules() == old(manager.ReceivedRules()) && manager.ListenedPaths() == old(manager.ListenedPaths())
      ensures manager.CascadedFrom(old(manager.CurrentView()), Delivered(old(manager.Listening()), this, l), true)
      ensures old(manager.Registry()) ==> manager.Registry()
      decreases MaxDepth(manager.Blessings) - depth, 0, 0
    {
      var pm := manager;
      ghost var v0 := pm.CurrentView();
      ghost var links := pm.Listening();
      BelowOne(links, this, l);
      ChildOrdered(links, this, l);
      l.child.Revoke();
      LinkCascade(v0, pm.CurrentView(), this, l, Reach(links, l.child), true, pm.ReceivedRules(), pm.ListenedPaths());
    }

    /** The manager's listener or an outside one told of the removal. */
    method TellRemoval(l: Listener)
      requires this in manager.Blessings && manager.KeysResolvable() && !l.ParentLink?
      modifies manager`cache, manager`nearest, manager`permissionEvents, manager`lastRules, manager`blessingEvents
      ensures manager.Listening() == old(manager.Listening()) && manager.Writes() == old(manager.Writes())
      ensures manager.ReceivedRules() == old(manager.ReceivedRules()) && manager.ListenedPaths() == old(manager.ListenedPaths())
      ensures manager.CascadedFrom(old(manager.CurrentView()), {(this, l)}, true)
    {
      match l
      case ManagerLink =>
        manager.OnBlessingChanged(this, true);
      case Observer(o) =>
        manager.CallObserver(Removed(o, this));
    }

    /** addListener(l): `l` joins the listeners and is called at once, exactly once. Parent
        links are added only by the blessing they belong to, when it registers. */
    method AddListener(l: Listener)
      requires manager.Registry() && this in manager.Blessings && manager.KeysResolvable() && !l.ParentLink?
      modifies this`listeners, manager`cache, manager`nearest, manager`permissionEvents, manager`lastRules, manager`blessingEvents
      ensures manager.Registry() && listeners == old(listeners) + {l}
      ensures manager.CascadedFrom(old(manager.CurrentView()), {(this, l)}, false)
    {
      Join(l);
      Deliver(l);
    }

    /** mListeners.add(l), for a listener other than a parent link. */
    method Join(l: Listener)
      requires manager.Registry() && this in manager.Blessings && !l.ParentLink?
      modifies this`listeners
      ensures manager.Registry() && Ordered(manager.Listening()) && listeners == old(listeners) + {l}
    {
      listeners := listeners + {l};
      assert manager.Member(this);
      manager.RegistryOrdered();
    }

    /** addListeners(ls): the listeners join without being called; the result says whether
        the set changed. */
    method AddListeners(ls: set<Listener>) returns (changed: bool)
      requires manager.Registry() && this in manager.Blessings && forall l | l in ls :: !l.ParentLink?
      modifies this`listeners
      ensures manager.Registry() && listeners == old(listeners) + ls
      ensures changed <==> !(ls <= old(listeners))
    {
      changed := !(ls <= listeners);
      listeners := listeners + ls;
      assert manager.Member(this);
    }

    /** removeListener(l): the result says whether `l` was a listener. */
    method RemoveListener(l: Listener) returns (removed: bool)
      requires this in manager.Blessings
      modifies this`listeners
      ensures listeners == old(listeners) - {l}
      ensures manager.Listening() == old(manager.Listening())[this := listeners]
      ensures manager.Writes() == old(manager.Writes()) && manager.CurrentView() == old(manager.CurrentView())
      ensures manager.ReceivedRules() == old(manager.ReceivedRules()) && manager.ListenedPaths() == old(manager.ListenedPaths())
      ensures old(manager.Registry()) ==> manager.Registry()
      ensures removed <==> l in old(listeners)
    {
      removed := l in listeners;
      listeners := listeners - {l};
      manager.ViewKept();
      if old(manager.Registry()) {
        manager.RegistryKept();
      }
    }

    /** removeListeners(ls): the result says whether any of `ls` was a listener. */
    method RemoveListeners(ls: set<Listener>) returns (changed: bool)
      requires manager.Registry() && this in manager.Blessings
      modifies this`listeners
      ensures manager.Registry() && listeners == old(listeners) - ls
      ensures changed <==> old(listeners) * ls != {}
    {
      changed := listeners * ls != {};
      listeners := listeners - ls;
      assert manager.Member(this);
    }

    /** The `permissions` map is what this blessing's rule writes recorded. */
    ghost predicate Mirrored()
      reads this`permissions, this`writes
    {
      permissions == Recorded(writes)
    }

    /** setPermissions(path, mask): the mask is recorded for the path and written as its rule. */
    method SetPermissions(path: Path, mask: Mask)
      modifies this`permissions, this`writes
      ensures permissions == old(permissions)[path := mask]
      ensures writes == old(writes) + [SetRule(path, mask)]
      ensures old(Mirrored()) ==> Mirrored()
    {
      permissions := permissions[path := mask];
      RecordedSnoc(writes, SetRule(path, mask));
      writes := writes + [SetRule(path, mask)];
    }

    /** setPermissions(map): setPermissions for every entry, in the map's iteration order;
        each entry is written once. */
    method SetAllPermissions(perms: map<Path, Mask>)
      modifies this`permissions, this`writes
      ensures permissions == old(permissions) + perms
      ensures LoggedAfter(writes, old(writes), set p | p in perms :: SetRule(p, perms[p]), |perms.Keys|)
      ensures old(Mirrored()) ==> Mirrored()
    {
      assert Restricted(perms, {}) == map[] && RuleWrites(perms, {}) == {};
      SetEach(permissions, writes, Mirrored(), perms, {}, perms.Keys, []);
    }

    /** The loop of setPermissions(map) as a recursion over the paths `todo` not yet written. */
    method SetEach(ghost p0: map<Path, Mask>, ghost w0: seq<StoreWrite>, ghost m0: bool, perms: map<Path, Mask>,
                   ghost done: set<Path>, todo: set<Path>, ghost added: seq<StoreWrite>)
      requires todo == perms.Keys - done && done <= perms.Keys
      requires Setting(p0, w0, m0, perms, done, added)
      modifies this`permissions, this`writes
      ensures permissions == p0 + perms
      ensures LoggedAfter(writes, w0, set p | p in perms :: SetRule(p, perms[p]), |perms.Keys|)
      ensures m0 ==> Mirrored()
      decreases todo
    {
      if todo == {} {
        assert done == perms.Keys && Restricted(perms, done) == perms;
        LoggedCalls(w0, added, RuleWrites(perms, done), |perms.Keys|);
        return;
      }
      var p :| p in todo;
      var added' := SetOne(p0, w0, m0, perms, done, added, p);
      SetEach(p0, w0, m0, perms, done + {p}, todo - {p}, added');
    }

    /** Part way through setPermissions(map), once the paths `done` are written: the map
        is the one it started from (`p0`) with their entries put over it, the writes are
        the ones it started from (`w0`) followed by one rule write for each, and the map
        still mirrors the writes if it did (`m0`). */
    ghost predicate Setting(p0: map<Path, Mask>, w0: seq<StoreWrite>, m0: bool, perms: map<Path, Mask>,
                            done: set<Path>, added: seq<StoreWrite>)
      requires done <= perms.Keys
      reads this`permissions, this`writes
    {
      && (m0 ==> p0 == Recorded(w0))
      && permissions == p0 + Restricted(perms, done)
      && writes == w0 + added
      && |added| == |done| && Elements(added) == RuleWrites(perms, done)
      && (m0 ==> Mirrored())
    }

    /** One pass of setPermissions(map). */
    method SetOne(ghost p0: map<Path, Mask>, ghost w0: seq<StoreWrite>, ghost m0: bool, perms: map<Path, Mask>,
                  ghost done: set<Path>, ghost added: seq<StoreWrite>, p: Path)
      returns (ghost added': seq<StoreWrite>)
      requires done <= perms.Keys && p in perms && p !in done
      requires Setting(p0, w0, m0, perms, done, added)
      modifies this`permissions, this`writes
      ensures added' == added + [SetRule(p, perms[p])]
      ensures Setting(p0, w0, m0, perms, done + {p}, added')
    {
      SetPermissions(p, perms[p]);
      RuleWritesStep(perms, done, p, added);
      RestrictedStep(p0, perms, done, p);
      added' := added + [SetRule(p, perms[p])];
    }

    /** clearPermissions(path): the path's rule is cleared and the path forgotten. */
    method ClearPermissions(path: Path)
      modifies this`permissions, this`writes
      ensures permissions == old(permissions) - {path}
      ensures writes == old(writes) + [ClearRule(path)]
      ensures old(Mirrored()) ==> Mirrored()
    {
      RecordedSnoc(writes, ClearRule(path));
      writes := writes + [ClearRule(path)];
      permissions := permissions - {path};
    }

    /** revokePermissions(path): the rules at and below the path are removed from the store,
        all of them for a null path; the `permissions` map is left as it was. */
    method RevokePermissions(path: Path)
      modifies this`writes
      ensures writes == old(writes) + [RemoveRules(path)]
      ensures old(Mirrored()) ==> Mirrored()
    {
      RecordedSnoc(writes, RemoveRules(path));
      writes := writes + [RemoveRules(path)];
    }

    /** onDataChange(snapshot): when the record exists it becomes this blessing's snapshot,
        its rules (an empty root when it has none) replace the tree's rules, and the
        listeners are notified; a missing record changes nothing. */
    method OnDataChange(present: bool, rules: Option<Snapshot>)
      requires manager.Registry() && this in manager.Blessings && manager.KeysResolvable()
      requires rules.Some? ==> StoreKeys(rules.value)
      modifies this`synched, permissionTree
      modifies manager`cache, manager`nearest, manager`permissionEvents, manager`lastRules, manager`blessingEvents
      ensures !present ==> synched == old(synched) && unchanged(permissionTree) && manager.CurrentView() == old(manager.CurrentView())
      ensures present ==>
        && synched
        && permissionTree.root == (if rules.Some? then Hydrate(rules.value, "", None, NONE) else EMPTY_ROOT)
        && Indexes(permissionTree.rules, permissionTree.root)
        && manager.Registry() && Ordered(manager.Listening())
        && manager.CascadedFrom(old(manager.CurrentView()), Reach(manager.Listening(), this), false)
    {
      if present {
        var root := EMPTY_ROOT;
        if rules.Some? {
          HydrateWellFormed(rules.value, "", None, NONE);
          root := Hydrate(rules.value, "", None, NONE);
        }
        Synch(root);
        NotifyListeners();
      }
    }

    /** The synched flag raised and the rules replaced by those of the snapshot. */
    method Synch(root: Node)
      requires manager.Registry() && this in manager.Blessings && WellFormed(root)
      modifies this`synched, permissionTree
      ensures synched && permissionTree.root == root && Indexes(permissionTree.rules, root)
      ensures manager.Registry() && Ordered(manager.Listening())
    {
      synched := true;
      permissionTree.SetRoot(root);
      manager.RegistryOrdered();
    }
  }

  class PermissionManager {
    /** mId: the local device's id. */
    const id: string
    /** Stands for Blessing.getPermissionAt, which is not part of this model: given a
        blessing's rule root, a path and the value folded so far, the next value. */
    const permissionAt: (Node, Path, Mask) -> Mask

    var rootBlessing: Blessing?
    /** mBlessings: id -> blessing. */
    var blessings: map<string, Blessing>
    /** mBlessingsTable: (source or "root", target) -> blessing. */
    var table: map<(string, string), Blessing>
    /** Every blessing constructed for this manager. */
    ghost var Blessings: set<Blessing>

    /** mCachedPermissions: path -> mask. */
    var cache: map<Path, Mask>
    /** mPermissionValueEventListeners: (path, listener) pairs. */
    var permissionListeners: set<(Path, nat)>
    /** mNearestAncestors: (cached path, listener path) pairs. */
    var nearest: set<(Path, Path)>
    /** The calls made on permission listeners, in order: (listener, mask). */
    var permissionEvents: seq<(nat, Mask)>
    /** The rules the last refresh read, in the order it read them. */
    ghost var lastRules: seq<Rule>
    /** The calls made on outside blessing listeners, in order. */
    var blessingEvents: seq<BlessingEvent>

    /** What an outside request listener answers when offered a request (onRequest). */
    const accepts: (nat, PermissionRequest) -> bool
    /** mRequests: request id -> request. */
    var requests: map<string, PermissionRequest>
    /** mRequestListeners: (path, listener) pairs. */
    var requestListeners: set<(Path, nat)>
    /** mSubscribedRequests: (request id, listener) pairs. */
    var subscriptions: set<(string, nat)>
    /** mActiveRequests: (group, path) -> builder. */
    var activeRequests: map<(string, string), RequestBuilder>
    /** The calls made on outside request listeners, in order. */
    var requestEvents: seq<RequestEvent>
    /** The builders cancelled, in order. */
    var cancelled: seq<RequestBuilder>
    /** The ids of the request records removed from the store, in order. */
    var finished: seq<string>

    /** PermissionManager(ref, owner): the indexes, the cache and the request tables start
        empty, and the root blessing of `owner` is created. */
    constructor (owner: string, permissionAt: (Node, Path, Mask) -> Mask, accepts: (nat, PermissionRequest) -> bool)
      ensures Valid() && KeysResolvable() && Refreshed()
      ensures id == owner && this.permissionAt == permissionAt && this.accepts == accepts
      ensures fresh(rootBlessing) && Blessings == {rootBlessing}
      ensures blessings == map[owner := rootBlessing] && table == map[(KEY_ROOT, owner) := rootBlessing]
      ensures cache == map[] && permissionListeners == {} && nearest == {}
      ensures requests == map[] && requestListeners == {} && subscriptions == {} && activeRequests == map[]
      ensures permissionEvents == [] && blessingEvents == [] && requestEvents == [] && cancelled == [] && finished == []
    {
      id := owner;
      this.permissionAt := permissionAt;
      this.accepts := accepts;
      rootBlessing := null;
      blessings := map[];
      table := map[];
      Blessings := {};
      cache := map[];
      permissionListeners := {};
      nearest := {};
      permissionEvents := [];
      lastRules := [];
      blessingEvents := [];
      requests := map[];
      requestListeners := {};
      subscriptions := {};
      activeRequests := map[];
      requestEvents := [];
      cancelled := [];
      finished := [];
      new;
      Start();
    }

    /** The constructor's last step on the empty manager: the root blessing is created, and
        nothing is received yet. */
    method Start()
      requires Blessings == {} && blessings == map[] && table == map[] && requests == map[]
      requires cache == map[] && nearest == {} && permissionListeners == {} && lastRules == []
      modifies this`rootBlessing, this`Blessings, this`blessings, this`table
      ensures Valid() && Refreshed() && fresh(rootBlessing) && Blessings == {rootBlessing}
      ensures blessings == map[id := rootBlessing] && table == map[(KEY_ROOT, id) := rootBlessing]
    {
      InitRootBlessing();
      NothingReceived();
    }

    /** With no synched blessing in the table, an empty cache, no listener and no rule read
        are what a refresh leaves. */
    lemma NothingReceived()
      requires forall k | k in table :: !table[k].synched
      requires cache == map[] && nearest == {} && permissionListeners == {} && lastRules == []
      ensures Refreshed()
    {
      assert ReceivedRules() == {};
      assert ListenedPaths() == {};
    }

    /** initRootBlessing(): the root blessing of this device, as createRoot finds or makes it. */
    method InitRootBlessing()
      requires Registry()
      modifies this`rootBlessing, this`Blessings, this`blessings, this`table, Blessings`listeners
      ensures Registry() && rootBlessing != null && rootBlessing in Blessings
      ensures table == old(table)[(KEY_ROOT, id) := rootBlessing]
      ensures (KEY_ROOT, id) in old(table) ==> rootBlessing == old(table[(KEY_ROOT, id)]) && Unchanged()
      ensures (KEY_ROOT, id) !in old(table) ==>
        && Registered(rootBlessing, KEY_ROOT, id)
        && rootBlessing.id == id && rootBlessing.source == None && rootBlessing.target == id
        && rootBlessing.parentBlessing == null
    {
      rootBlessing := Blessing.CreateRoot(this, id);
    }

    /** The manager as its operations leave it: the registry holds, the root blessing is a
        registered root whose id and target are this device's id, and every stored request
        is stored under its own id, comes from another device and names a path. */
    ghost predicate Valid()
      reads this`Blessings, this`blessings, this`table, Blessings`listeners, this`rootBlessing, this`requests
    {
      && Registry()
      && rootBlessing != null && rootBlessing in Blessings
      && rootBlessing.parentBlessing == null && rootBlessing.id == id && rootBlessing.target == id
      && forall k | k in requests :: requests[k].id == k && requests[k].source != id && requests[k].path.Some?
    }

    /** The trees of the registered blessings. */
    ghost function Trees(): set<PermissionTree>
      reads this`Blessings
    {
      set b | b in Blessings :: b.permissionTree
    }

    /** A registered blessing belongs to this manager, has a finite chain of registered
        parents, its own tree linked to its parent's tree, and parent links only to its own
        registered children. */
    ghost predicate Member(b: Blessing)
      reads this`Blessings, b`listeners
    {
      && b.manager == this && b.Linked()
      && (b.parentBlessing != null ==> b.parentBlessing in Blessings)
      && b.permissionTree.Linked()
      && b.permissionTree.parentTree == (if b.parentBlessing == null then null else b.parentBlessing.permissionTree)
      && (forall l | l in b.listeners && l.ParentLink? :: l.child in Blessings && l.child.parentBlessing == b)
    }

    /** The indexes hold registered blessings only, every registered blessing is a member,
        and no two share a tree. */
    ghost predicate Registry()
      reads this`Blessings, this`blessings, this`table, Blessings`listeners
    {
      && (forall k | k in blessings :: blessings[k] in Blessings)
      && (forall k | k in table :: table[k] in Blessings)
      && (forall b | b in Blessings :: Member(b))
      && (forall b1, b2 | b1 in Blessings && b2 in Blessings && b1 != b2 :: b1.permissionTree != b2.permissionTree)
    }

    lemma RegisteredLinked(b: Blessing)
      requires Registry() && b in Blessings
      ensures b.Linked()
    {
    }

    /** The listeners of the registered blessings. */
    ghost function Listening(): (r: ListenerMap)
      reads this`Blessings, Blessings`listeners
      ensures r.Keys == Blessings && forall b | b in Blessings :: r[b] == b.listeners
    {
      map b | b in Blessings :: b.listeners
    }

    /** Part way through revoking `b`, whose listeners were `links[b]` and the write logs
        `w0`, once the listeners `done` were told: `b` and the subtrees under those listeners
        are cut from their parents and have each removed their rules (but for `b`, which
        does so last), and the calls of those listeners' cascades were made since `v0`. */
    ghost predicate Revoking(links: ListenerMap, w0: map<Blessing, seq<StoreWrite>>, v0: ManagerView, b: Blessing,
                             done: set<Listener>, received: set<Rule>, listened: set<Path>)
      requires Ordered(links) && b in links && done <= links[b]
      reads this`Blessings, Blessings`listeners, Blessings`writes
      reads this`table, TableBlessings()`synched, TableTrees()`root
      reads this`cache, this`nearest, this`permissionListeners, this`lastRules, this`permissionEvents, this`blessingEvents
    {
      && b in Blessings
      && b !in Below(links, b, done)
      && Listening() == Pruned(links, {b} + Below(links, b, done))
      && Writes() == Appended(w0, Below(links, b, done), RemoveRules(None))
      && ReceivedRules() == received && ListenedPaths() == listened
      && KeysResolvable()
      && CascadeSoFar(v0, CurrentView(), Called(links, b, done), true, received, listened)
    }

    /** A revoke of `b`, begun in the state whose listeners were `links`, write logs `w0`,
        view `v0`, received rules `received` and listened paths `listened`, is over: `b`
        and every blessing below it are cut from their parents, each removed its rules once,
        every listener any of them held was told of the removal, once, and nothing the cache
        is rebuilt from changed. */
    ghost predicate Revoked(links: ListenerMap, w0: map<Blessing, seq<StoreWrite>>, v0: ManagerView, b: Blessing,
                            received: set<Rule>, listened: set<Path>)
      requires Ordered(links) && b in links
      reads this`Blessings, Blessings`listeners, Blessings`writes
      reads this`table, TableBlessings()`synched, TableTrees()`root
      reads this`cache, this`nearest, this`permissionListeners, this`lastRules, this`permissionEvents, this`blessingEvents
    {
      && Listening() == Pruned(links, Subtree(links, b))
      && Writes() == Appended(w0, Subtree(links, b), RemoveRules(None))
      && ReceivedRules() == received && ListenedPaths() == listened
      && KeysResolvable()
      && CascadeSoFar(v0, CurrentView(), Reach(links, b), true, received, listened)
    }

    /** The store writes of the registered blessings. */
    ghost function Writes(): (r: map<Blessing, seq<StoreWrite>>)
      reads this`Blessings, Blessings`writes
      ensures r.Keys == Blessings && forall b | b in Blessings :: r[b] == b.writes
    {
      map b | b in Blessings :: b.writes
    }

    /** In the registry parent links lead to deeper registered blessings. */
    lemma RegistryOrdered()
      requires Registry()
      ensures Ordered(Listening())
    {
      forall b, l | b in Blessings && l in b.listeners && l.ParentLink?
        ensures l.child in Blessings && b.depth < l.child.depth && l.child.manager == b.manager
      {
        assert Member(b);
        assert Member(l.child);
      }
    }

    /** The registry survives entries leaving the indexes and listeners leaving. */
    twostate lemma RegistryKept()
      requires old(Registry())
      requires Blessings == old(Blessings)
      requires forall k | k in blessings :: k in old(blessings) && blessings[k] == old(blessings[k])
      requires forall k | k in table :: k in old(table) && table[k] == old(table[k])
      requires forall b | b in Blessings :: b.listeners <= old(b.listeners)
      ensures Registry()
    {
      forall b | b in Blessings
        ensures Member(b)
      {
        assert old(Member(b));
      }
    }

    /** No registered blessing, index or listener changed. */
    twostate predicate Unchanged()
      reads this`Blessings, this`blessings, this`table, Blessings`listeners
    {
      && Blessings == old(Blessings) && blessings == old(blessings) && table == old(table)
      && forall x | x in Blessings :: x.listeners == old(x.listeners)
    }

    /** `b` is a new blessing, put under its id and under (row, column), registered with its
        parent, and otherwise in its initial state; nothing else changed. */
    twostate predicate Registered(new b: Blessing, row: string, column: string)
      reads this`Blessings, this`blessings, this`table, Blessings`listeners, b, b.permissionTree, b.ParentSet()`listeners
    {
      && b.manager == this && fresh(b)
      && Blessings == old(Blessings) + {b}
      && blessings == old(blessings)[b.id := b]
      && table == old(table)[(row, column) := b]
      && b.listeners == {} && !b.synched && b.permissions == map[]
      && b.permissionTree.root == EMPTY_ROOT
      && b.writes == [SetField("id", b.id)]
                     + (if b.source.Some? then [SetField("source", b.source.value)] else [])
                     + [SetField("target", b.target)]
      && (forall x | x in old(Blessings) && x != b.parentBlessing :: x.listeners == old(x.listeners))
      && var parent := b.parentBlessing;
         parent != null ==>
           && parent in old(Blessings) && old(allocated(parent))
           && parent.listeners == old(parent.listeners) + {ParentLink(b)}
    }

    /** The registration a new blessing makes after construction: it joins the registry,
        its parent's listeners gain its parent link (the callback that registration triggers
        finds no listeners on the new blessing and does nothing), and putBlessing indexes it. */
    method Register(b: Blessing, source: Option<string>, target: string)
      requires Registry() && b !in Blessings && b.manager == this && b.Linked() && b.listeners == {}
      requires b.parentBlessing != null ==> b.parentBlessing in Blessings
      requires b.permissionTree.Linked() && b.permissionTree !in Trees()
      requires b.permissionTree.parentTree == (if b.parentBlessing == null then null else b.parentBlessing.permissionTree)
      modifies this`Blessings, this`blessings, this`table, Blessings`listeners
      ensures Registry()
      ensures Blessings == old(Blessings) + {b}
      ensures blessings == old(blessings)[b.id := b]
      ensures table == old(table)[(RowKey(source), target) := b]
      ensures forall x | x in old(Blessings) && x != b.parentBlessing :: x.listeners == old(x.listeners)
      ensures b.parentBlessing != null ==>
        b.parentBlessing.listeners == old(b.parentBlessing.listeners) + {ParentLink(b)}
    {
      Enrol(b);
      var _ := PutBlessing(source, target, b);
    }

    /** The new blessing joins the registry, and its parent's listeners gain its parent link. */
    method Enrol(b: Blessing)
      requires Registry() && b !in Blessings && b.manager == this && b.Linked() && b.listeners == {}
      requires b.parentBlessing != null ==> b.parentBlessing in Blessings
      requires b.permissionTree.Linked() && b.permissionTree !in Trees()
      requires b.permissionTree.parentTree == (if b.parentBlessing == null then null else b.parentBlessing.permissionTree)
      modifies this`Blessings, Blessings`listeners
      ensures Registry() && Blessings == old(Blessings) + {b}
      ensures forall x | x in old(Blessings) && x != b.parentBlessing :: x.listeners == old(x.listeners)
      ensures b.parentBlessing != null ==>
        b.parentBlessing.listeners == old(b.parentBlessing.listeners) + {ParentLink(b)}
    {
      Blessings := Blessings + {b};
      forall x | x in Blessings
        ensures Member(x)
      {
        assert old(Member(x)) || x == b;
      }
      var parent := b.parentBlessing;
      if parent != null {
        parent.listeners := parent.listeners + {ParentLink(b)};
        forall x | x in Blessings
          ensures Member(x)
        {
        }
      }
    }

    /** getBlessing(id) */
    function GetBlessingById(rId: string): Option<Blessing>
      reads this`blessings
    {
      if rId in blessings then Some(blessings[rId]) else None
    }

    /** getBlessing(source, target), a null source read as the "root" row. */
    function GetBlessing(source: Option<string>, target: string): (r: Option<Blessing>)
      reads this`table
      ensures r.Some? <==> (RowKey(source), target) in table
      ensures r.Some? ==> r.value == table[(RowKey(source), target)]
    {
      var row := (RowKey(source), target);
      if row in table then Some(table[row]) else None
    }

    /** putBlessing(source, target, b): `b` under its id and under (source or "root",
        target); the blessing previously under that row and column is returned. */
    method PutBlessing(source: Option<string>, target: string, b: Blessing) returns (previous: Option<Blessing>)
      modifies this`blessings, this`table
      ensures blessings == old(blessings)[b.id := b]
      ensures table == old(table)[(RowKey(source), target) := b]
      ensures previous == old(GetBlessing(source, target))
      ensures GetBlessingById(b.id) == Some(b) && GetBlessing(source, target) == Some(b)
    {
      blessings := blessings[b.id := b];
      var row := if source.None? then KEY_ROOT else source.value;
      previous := if (row, target) in table then Some(table[(row, target)]) else None;
      table := table[(row, target) := b];
    }

    /** removeBlessing(rId): the blessing leaves the id index, and the table entry under its
        raw source and its target is removed. For a blessing with a source that is the row
        putBlessing used, so getBlessing(source, target) no longer finds it; for a root
        blessing the raw row is null, which matches no entry, and its "root" row stays
        (`RootRowSurvivesRawRemoval`; `RemoveRow` under `RowKey` is the intended removal). */
    method RemoveBlessing(rId: string)
      modifies this`blessings, this`table
      ensures blessings == old(blessings) - {rId}
      ensures GetBlessingById(rId) == None
      ensures rId !in old(blessings) ==> table == old(table)
      ensures rId in old(blessings) ==>
        var b := old(blessings[rId]);
        && table == RemoveRawRow(old(table), b.source, b.target)
        && (b.source.Some? ==> GetBlessing(b.source, b.target) == None)
        && (b.source.None? ==> GetBlessing(b.source, b.target) == old(GetBlessing(b.source, b.target)))
    {
      if rId in blessings {
        var removed := blessings[rId];
        blessings := blessings - {rId};
        table := RemoveRawRow(table, removed.source, removed.target);
      }
    }

    /** The cached and listened paths are ones getNearestCommonAncestor accepts. */
    ghost predicate KeysResolvable()
      reads this`cache, this`permissionListeners
    {
      && (forall p | p in cache :: Resolvable(p))
      && (forall f | f in permissionListeners :: Resolvable(f.0))
    }

    /** mPermissionValueEventListeners.keySet() */
    function ListenedPaths(): (r: set<Path>)
      reads this`permissionListeners
      ensures forall f | f in permissionListeners :: f.0 in r
      ensures forall p | p in r :: exists f | f in permissionListeners :: f.0 == p
    {
      set f | f in permissionListeners :: f.0
    }

    ghost function TableBlessings(): set<Blessing>
      reads this`table
    {
      set k | k in table :: table[k]
    }

    ghost function TableTrees(): set<PermissionTree>
      reads this`table
    {
      set k | k in table :: table[k].permissionTree
    }

    /** The rules of the synched blessings under the given table entries. */
    ghost function RowRules(rows: set<(string, string)>): set<Rule>
      reads this`table, TableBlessings()`synched, TableTrees()`root
    {
      set k, r | k in rows && k in table && table[k].synched && r in RulesOf(table[k].permissionTree.root) :: r
    }

    /** The table entries of this device's column. */
    function ReceivedRows(): (r: set<(string, string)>)
      reads this`table
      ensures forall k :: k in r <==> k in table && k.1 == id
    {
      set k | k in table && k.1 == id
    }

    /** The rules refreshPermissions reads: those of the synched received blessings. */
    ghost function ReceivedRules(): set<Rule>
      reads this`table, TableBlessings()`synched, TableTrees()`root
    {
      RowRules(ReceivedRows())
    }

    /** The state a refresh leaves: the rules it read are the received rules, and the cache
        and the routing are rebuilt from them (`RebuiltFrom`). */
    ghost predicate Refreshed()
      reads this`table, TableBlessings()`synched, TableTrees()`root
      reads this`cache, this`nearest, this`permissionListeners, this`lastRules
    {
      && RulesCollected()
      && KeysResolvable()
      && RebuiltFrom(cache, nearest, ListenedPaths(), lastRules)
    }

    /** The write logs, the received rules and the listened paths survive a change that
        touches none of the fields they are read from. */
    twostate lemma RecordsKept()
      requires Blessings == old(Blessings) && table == old(table)
      requires forall b | b in Blessings :: b.writes == old(b.writes)
      requires forall k | k in table :: table[k].synched == old(table[k].synched) && table[k].permissionTree.root == old(table[k].permissionTree.root)
      requires permissionListeners == old(permissionListeners)
      ensures Writes() == old(Writes()) && ReceivedRules() == old(ReceivedRules()) && ListenedPaths() == old(ListenedPaths())
    {
      assert TableBlessings() == old(TableBlessings());
      assert TableTrees() == old(TableTrees());
    }

    /** So does the view, when the cache, the routing, the rules read and the logs stay. */
    twostate lemma ViewKept()
      requires Blessings == old(Blessings) && table == old(table)
      requires forall b | b in Blessings :: b.writes == old(b.writes)
      requires forall k | k in table :: table[k].synched == old(table[k].synched) && table[k].permissionTree.root == old(table[k].permissionTree.root)
      requires cache == old(cache) && nearest == old(nearest) && lastRules == old(lastRules)
      requires permissionEvents == old(permissionEvents) && blessingEvents == old(blessingEvents)
      requires permissionListeners == old(permissionListeners)
      ensures Writes() == old(Writes()) && CurrentView() == old(CurrentView())
      ensures ReceivedRules() == old(ReceivedRules()) && ListenedPaths() == old(ListenedPaths())
    {
      RecordsKept();
    }

    /** The rules a refresh read stay the received rules while neither the table, the
        synched flags and trees of its blessings, nor the rules read change. */
    twostate lemma RulesKept()
      requires old(RulesCollected())
      requires table == old(table) && lastRules == old(lastRules)
      requires forall k | k in table :: table[k].synched == old(table[k].synched) && table[k].permissionTree.root == old(table[k].permissionTree.root)
      ensures RulesCollected()
    {
      assert TableBlessings() == old(TableBlessings());
      assert TableTrees() == old(TableTrees());
    }

    /** The rules a refresh read are exactly the received rules. */
    ghost predicate RulesCollected()
      reads this`table, TableBlessings()`synched, TableTrees()`root, this`lastRules
    {
      AllResolvable(lastRules) && Elements(lastRules) == ReceivedRules()
    }

    ghost function CurrentView(): ManagerView
      reads this`cache, this`nearest, this`lastRules, this`permissionEvents, this`blessingEvents
    {
      ManagerView(cache, nearest, lastRules, permissionEvents, blessingEvents)
    }

    /** Since the view `v0`, a cascade made the calls `calls`, the cached and listened paths
        stay resolvable, and if one of the calls refreshed, the cache and the routing are
        rebuilt from the received rules (`CascadeSoFar`). */
    ghost predicate CascadedFrom(v0: ManagerView, calls: set<(Blessing, Listener)>, removal: bool)
      reads this`table, TableBlessings()`synched, TableTrees()`root
      reads this`cache, this`nearest, this`permissionListeners, this`lastRules, this`permissionEvents, this`blessingEvents
    {
      && KeysResolvable()
      && CascadeSoFar(v0, CurrentView(), calls, removal, ReceivedRules(), ListenedPaths())
    }

    /** A cascade that reached the manager's listener leaves the cache refreshed. */
    lemma CascadeRefreshed(v0: ManagerView, calls: set<(Blessing, Listener)>, removal: bool)
      requires CascadedFrom(v0, calls, removal) && Refreshes(calls)
      ensures Refreshed()
    {
    }

    /** The fold getCombinedPermission makes over the blessings of the given ids. */
    ghost function CombinedOver(path: Path, ids: seq<string>): Mask
      reads this`blessings, (set k | k in blessings :: blessings[k].permissionTree)`root
    {
      if ids == [] then NONE
      else
        var previous := CombinedOver(path, ids[..|ids| - 1]);
        var k := ids[|ids| - 1];
        if k in blessings then permissionAt(blessings[k].permissionTree.root, path, previous) else previous
    }

    /** getCombinedPermission(path): getPermissionAt folded over every blessing, from 0, in
        the map's iteration order. */
    method GetCombinedPermission(path: Path) returns (v: Mask, ghost ids: seq<string>)
      ensures Enumerates(ids, blessings.Keys) && v == CombinedOver(path, ids)
    {
      v := NONE;
      ids := [];
      var todo := blessings.Keys;
      while todo != {}
        invariant todo <= blessings.Keys
        invariant Enumerates(ids, blessings.Keys - todo)
        invariant v == CombinedOver(path, ids)
        decreases todo
      {
        var k :| k in todo;
        v := permissionAt(blessings[k].permissionTree.root, path, v);
        assert (ids + [k])[..|ids|] == ids;
        EnumeratesSnoc(ids, blessings.Keys - todo, k);
        ids := ids + [k];
        todo := todo - {k};
      }
    }

    /** getPermission(path): a cached path answers from the cache and changes nothing; any
        other path is combined over the blessings and the result cached. */
    method GetPermission(path: Path) returns (v: Mask, ghost ids: seq<string>)
      modifies this`cache
      ensures path in old(cache) ==> v == old(cache)[path] && cache == old(cache)
      ensures path !in old(cache) ==>
        && cache == old(cache)[path := v]
        && Enumerates(ids, blessings.Keys) && v == CombinedOver(path, ids)
    {
      v, ids := LookUp(path);
      Remember(path, v);
    }

    /** The value getPermission answers for `path`: the cached one, or the combination over
        the blessings. */
    method LookUp(path: Path) returns (v: Mask, ghost ids: seq<string>)
      ensures path in cache ==> v == cache[path]
      ensures path !in cache ==> Enumerates(ids, blessings.Keys) && v == CombinedOver(path, ids)
    {
      if path in cache {
        return cache[path], [];
      }
      v, ids := GetCombinedPermission(path);
    }

    /** The value of an uncached path is cached. */
    method Remember(path: Path, v: Mask)
      modifies this`cache
      ensures cache == if path in old(cache) then old(cache) else old(cache)[path := v]
    {
      if path !in cache {
        cache := cache[path := v];
      }
    }

    /** The first loop of refreshPermissions: the rules of every synched received blessing
        folded into a new table, blessing by blessing in the table's iteration order. */
    method CollectRules() returns (updated: map<Path, Mask>, ghost rules: seq<Rule>)
      ensures AllResolvable(rules) && updated == Accumulate(map[], rules)
      ensures Elements(rules) == ReceivedRules()
    {
      var rows := ReceivedRows();
      assert Elements<Rule>([]) == {} && RowRules({}) == {};
      updated, rules := CollectEach(rows, {}, rows, map[], []);
    }

    /** The outer loop of refreshPermissions as a recursion over the received entries `todo`
        not yet read; the rules of those `done` were folded into `acc` in the order `read`. */
    method CollectEach(ghost rows: set<(string, string)>, ghost done: set<(string, string)>, todo: set<(string, string)>,
                       acc: map<Path, Mask>, ghost read: seq<Rule>)
      returns (updated: map<Path, Mask>, ghost rules: seq<Rule>)
      requires rows == ReceivedRows() && todo <= rows && done == rows - todo
      requires AllResolvable(read) && acc == Accumulate(map[], read) && Elements(read) == RowRules(done)
      ensures AllResolvable(rules) && updated == Accumulate(map[], rules)
      ensures Elements(rules) == RowRules(rows)
      decreases todo
    {
      if todo == {} {
        assert done == rows;
        return acc, read;
      }
      var k :| k in todo;
      var b := table[k];
      updated, rules := acc, read;
      if b.synched {
        updated, rules := AccumulateTree(acc, read, b.permissionTree.root);
      }
      RowRulesAdd(done, k);
      updated, rules := CollectEach(rows, done + {k}, todo - {k}, updated, rules);
    }

    /** The rules under one more table entry are those of its blessing, when synched. */
    lemma RowRulesAdd(rows: set<(string, string)>, k: (string, string))
      requires k in table
      ensures RowRules(rows + {k}) == RowRules(rows) + (if table[k].synched then RulesOf(table[k].permissionTree.root) else {})
    {
    }

    /** The second loop: mNearestAncestors rebuilt for the new table. */
    method RouteListeners(keys: set<Path>)
      requires KeysResolvable()
      modifies this`nearest
      ensures nearest == NearestTable(ListenedPaths(), keys)
    {
      nearest := {};
      var paths := ListenedPaths();
      var todo := paths;
      while todo != {}
        invariant todo <= paths
        invariant nearest == NearestTable(paths - todo, keys)
        decreases todo
      {
        var p :| p in todo;
        var nearestAncestor := Utils.GetNearestCommonAncestor(p, keys);
        ResolveAgrees(p, keys);
        if nearestAncestor.value != None {
          nearest := nearest + {(nearestAncestor.value, p)};
        }
        todo := todo - {p};
      }
    }

    /** The third loop: every cached path missing from the new table leaves the cache, and its
        nearest surviving ancestor is marked changed. */
    method DropRemoved(updated: map<Path, Mask>) returns (changed: set<Path>)
      requires KeysResolvable()
      modifies this`cache
      ensures cache == old(cache) - (old(cache).Keys - updated.Keys)
      ensures changed == set p | p in old(cache) && p !in updated :: Resolve(p, updated.Keys)
    {
      var removed := cache.Keys - updated.Keys;
      var todo := removed;
      changed := {};
      while todo != {}
        invariant todo <= removed
        invariant cache == old(cache) - (removed - todo)
        invariant changed == set p | p in removed - todo :: Resolve(p, updated.Keys)
        decreases todo
      {
        var p :| p in todo;
        cache := cache - {p};
        var newPath := Utils.GetNearestCommonAncestor(p, updated.Keys);
        ResolveAgrees(p, updated.Keys);
        changed := changed + {newPath.value};
        todo := todo - {p};
      }
    }

    /** The fourth loop: every path of the new table that is not cached, or cached with a
        different value, takes its new value and is marked changed. */
    method StoreUpdated(updated: map<Path, Mask>) returns (changed: set<Path>)
      requires cache.Keys <= updated.Keys
      modifies this`cache
      ensures cache == updated
      ensures changed == set p | p in updated && (p !in old(cache) || old(cache)[p] != updated[p])
    {
      var todo := updated.Keys;
      changed := {};
      while todo != {}
        invariant todo <= updated.Keys
        invariant cache.Keys <= updated.Keys
        invariant forall p | p in updated && p !in todo :: p in cache && cache[p] == updated[p]
        invariant forall p | p in cache && p in todo :: p in old(cache) && cache[p] == old(cache)[p]
        invariant forall p | p in old(cache) && p in todo :: p in cache
        invariant changed == set p | p in updated && p !in todo && (p !in old(cache) || old(cache)[p] != updated[p])
        decreases todo
      {
        var p :| p in todo;
        var current := updated[p];
        if p !in cache {
          cache := cache[p := current];
          changed := changed + {p};
        } else {
          var previous := cache[p];
          if previous != current {
            cache := cache[p := current];
            changed := changed + {p};
          }
        }
        todo := todo - {p};
      }
    }

    /** onPermissionsChange(path): the path's permission, by getPermission, is handed to every
        listener of every listener path routed to it. */
    method OnPermissionsChange(path: Path) returns (permission: Mask)
      modifies this`cache, this`permissionEvents
      ensures path in old(cache) ==> permission == old(cache)[path] && cache == old(cache)
      ensures path !in old(cache) ==> cache == old(cache)[path := permission]
      ensures |permissionEvents| == |old(permissionEvents)| + |Routed(path)|
      ensures permissionEvents[..|old(permissionEvents)|] == old(permissionEvents)
      ensures Elements(permissionEvents[|old(permissionEvents)|..]) == CallsWith(Routed(path), permission)
    {
      ghost var ids;
      permission, ids := GetPermission(path);
      CallListeners(Routed(path), permission);
    }

    /** The listeners of one routed path each called once with the same mask. */
    method CallListeners(targets: set<(Path, nat)>, permission: Mask)
      modifies this`permissionEvents
      ensures |permissionEvents| == |old(permissionEvents)| + |targets|
      ensures permissionEvents[..|old(permissionEvents)|] == old(permissionEvents)
      ensures Elements(permissionEvents[|old(permissionEvents)|..]) == CallsWith(targets, permission)
    {
      var todo := targets;
      ghost var done := {};
      var calls: seq<(nat, Mask)> := [];
      while todo != {}
        modifies {}
        invariant todo <= targets && done == targets - todo
        invariant |calls| == |done|
        invariant Elements(calls) == CallsWith(done, permission)
        decreases todo
      {
        var f :| f in todo;
        ElementsAppend(calls, [(f.1, permission)]);
        ElementsOne((f.1, permission));
        CallsAdd(done, f, permission);
        calls := calls + [(f.1, permission)];
        todo, done := todo - {f}, done + {f};
      }
      LogCalls(calls);
    }

    /** The calls of one routed path, appended to the permission listener log. */
    method LogCalls(calls: seq<(nat, Mask)>)
      modifies this`permissionEvents
      ensures permissionEvents == old(permissionEvents) + calls
      ensures permissionEvents[..|old(permissionEvents)|] == old(permissionEvents)
      ensures permissionEvents[|old(permissionEvents)|..] == calls
    {
      permissionEvents := permissionEvents + calls;
    }

    /** The (listener path, listener) pairs whose listener path is routed to `path`. */
    function Routed(path: Path): set<(Path, nat)>
      reads this`permissionListeners, this`nearest
    {
      set f | f in permissionListeners && (path, f.0) in nearest
    }

    ghost predicate NotifiedSoFar(done: set<Path>, updated: map<Path, Mask>, n0: nat)
      reads this`cache, this`permissionEvents, this`nearest, this`permissionListeners
    {
      NotifiedState(cache, permissionEvents, n0, done, updated, nearest, permissionListeners)
    }

    /** One pass of the last loop. */
    method NotifyOne(p: Path, ghost done: set<Path>, updated: map<Path, Mask>, ghost n0: nat)
      requires NotifiedSoFar(done, updated, n0) && p !in done && (p in updated || p == None)
      requires forall e | e in nearest :: e.0 in updated
      modifies this`cache, this`permissionEvents
      ensures NotifiedSoFar(done + {p}, updated, n0)
      ensures |permissionEvents| >= |old(permissionEvents)|
      ensures permissionEvents[..|old(permissionEvents)|] == old(permissionEvents)
    {
      var v := OnPermissionsChange(p);
      NotifyStep(old(cache), cache, old(permissionEvents), permissionEvents, n0, done, p, v,
                 updated, nearest, permissionListeners);
    }

    /** The last loop: onPermissionsChange for every changed path. */
    method NotifyChanged(changed: set<Path>, updated: map<Path, Mask>)
      requires cache == updated && changed <= updated.Keys + {None}
      requires forall e | e in nearest :: e.0 in updated
      modifies this`cache, this`permissionEvents
      ensures forall p | p in updated :: p in cache && cache[p] == updated[p]
      ensures cache.Keys <= updated.Keys + {None}
      ensures None !in updated ==> (None in cache <==> None in changed)
      ensures |permissionEvents| >= |old(permissionEvents)|
      ensures permissionEvents[..|old(permissionEvents)|] == old(permissionEvents)
      ensures Elements(permissionEvents[|old(permissionEvents)|..]) == Notified(changed, updated, nearest, permissionListeners)
    {
      var todo := changed;
      ghost var n0 := |permissionEvents|;
      assert permissionEvents[n0..] == [];
      while todo != {}
        invariant todo <= changed
        invariant NotifiedSoFar(changed - todo, updated, n0)
        invariant |permissionEvents| >= n0 && permissionEvents[..n0] == old(permissionEvents)
        decreases todo
      {
        var p :| p in todo;
        NotifyOne(p, changed - todo, updated, n0);
        assert changed - (todo - {p}) == (changed - todo) + {p};
        todo := todo - {p};
      }
    }

    /** The last three loops of refreshPermissions, after the new table `updated` is built:
        the routing rebuilt for it, the cache replaced by it, and the listeners of every
        changed path called. */
    method Rebuild(updated: map<Path, Mask>)
      requires KeysResolvable() && forall p | p in updated :: Resolvable(p)
      modifies this`cache, this`nearest, this`permissionEvents
      ensures forall p | p in updated :: p in cache && cache[p] == updated[p]
      ensures cache.Keys <= updated.Keys + {None}
      ensures nearest == NearestTable(ListenedPaths(), updated.Keys)
      ensures None !in updated ==> (None in cache <==> None in Changed(old(cache), updated))
      ensures |permissionEvents| >= |old(permissionEvents)|
      ensures permissionEvents[..|old(permissionEvents)|] == old(permissionEvents)
      ensures Elements(permissionEvents[|old(permissionEvents)|..]) ==
        Notified(Changed(old(cache), updated), updated, nearest, permissionListeners)
    {
      RouteListeners(updated.Keys);
      NearestTableSpec(ListenedPaths(), updated.Keys);
      var changed := DropRemoved(updated);
      var changedValues := StoreUpdated(updated);
      assert changed + changedValues == Changed(old(cache), updated);
      ChangedSpec(old(cache), updated);
      NotifyChanged(changed + changedValues, updated);
    }

    /** refreshPermissions(): the cache rebuilt from the received rules, the listener routing
        rebuilt for the new table, and every listener routed to a changed path called with
        that path's new value. */
    method RefreshPermissions()
      requires KeysResolvable()
      modifies this`cache, this`nearest, this`permissionEvents, this`lastRules
      ensures Refreshed()
      ensures var u := Accumulate(map[], lastRules);
        && (None !in u ==> (None in cache <==> None in Changed(old(cache), u)))
        && |permissionEvents| >= |old(permissionEvents)|
        && permissionEvents[..|old(permissionEvents)|] == old(permissionEvents)
        && Elements(permissionEvents[|old(permissionEvents)|..]) ==
             Notified(Changed(old(cache), u), u, nearest, permissionListeners)
    {
      var updated;
      updated, lastRules := CollectRules();
      assert RulesCollected();
      label collected:
      AccumulatedResolvable(lastRules);
      Rebuild(updated);
      RulesKept@collected();
    }

    /** refreshPermissions(), seen by its callers: the cache is refreshed and the permission
        listener log only grew. */
    method Refresh()
      requires KeysResolvable()
      modifies this`cache, this`nearest, this`permissionEvents, this`lastRules
      ensures Refreshed() && old(permissionEvents) <= permissionEvents
    {
      RefreshPermissions();
    }

    /** blessingChangedListner: the manager's own listener on every blessing it holds; an
        update or a removal of `b` refreshes the cache, and changes nothing else. */
    method OnBlessingChanged(ghost b: Blessing, ghost removal: bool)
      requires KeysResolvable()
      modifies this`cache, this`nearest, this`permissionEvents, this`lastRules
      ensures Listening() == old(Listening()) && Writes() == old(Writes())
      ensures ReceivedRules() == old(ReceivedRules()) && ListenedPaths() == old(ListenedPaths())
      ensures Refreshed() && old(permissionEvents) <= permissionEvents
      ensures CascadedFrom(old(CurrentView()), {(b, ManagerLink)}, removal)
    {
      Refresh();
      RecordsKept();
      assert blessingEvents[|old(blessingEvents)|..] == [];
      assert Refreshes({(b, ManagerLink)});
    }

    /** blessingListener.onChildAdded(record): the blessing the record names, found under its
        (source, target) or made from the record, gets the manager's listener, whose first
        call refreshes the cache. */
    method OnBlessingAdded(record: BlessingRecord)
      requires Registry() && KeysResolvable()
      modifies this`Blessings, this`blessings, this`table, Blessings`listeners
      modifies this`cache, this`nearest, this`permissionEvents, this`lastRules, this`blessingEvents
      ensures Registry() && Refreshed()
      ensures var row := (RowKey(record.source), record.target);
        && row in table && table == old(table)[row := table[row]]
        && table[row] in Blessings && ManagerLink in table[row].listeners
        && (row in old(table) ==> table[row] == old(table[row]) && Blessings == old(Blessings))
        && (row !in old(table) ==>
              var b := table[row];
              b.id == record.key && b.source == record.source && b.target == record.target)
    {
      var b := ReceiveBlessing(record);
      Watch(b);
    }

    /** receivedBlessing.addListener(blessingChangedListner): the call it makes at once
        refreshes the cache. */
    method Watch(b: Blessing)
      requires Registry() && KeysResolvable() && b in Blessings && b.manager == this
      modifies b`listeners, this`cache, this`nearest, this`permissionEvents, this`lastRules, this`blessingEvents
      ensures Registry() && Refreshed() && b.listeners == old(b.listeners) + {ManagerLink}
    {
      b.AddListener(ManagerLink);
      assert Refreshes({(b, ManagerLink)});
      CascadeRefreshed(old(CurrentView()), {(b, ManagerLink)}, false);
    }

    /** fromSnapshot(this, record), seen by onChildAdded. */
    method ReceiveBlessing(record: BlessingRecord) returns (b: Blessing)
      requires Registry()
      modifies this`Blessings, this`blessings, this`table, Blessings`listeners
      ensures Registry() && b in Blessings && (b in old(Blessings) || fresh(b))
      ensures var row := (RowKey(record.source), record.target);
        && table == old(table)[row := b]
        && (row in old(table) ==> b == old(table[row]) && Blessings == old(Blessings))
        && (row !in old(table) ==> b.id == record.key && b.source == record.source && b.target == record.target)
    {
      b := Blessing.FromSnapshot(this, record);
    }

    /** blessingListener.onChildRemoved(key): the blessing under `key` leaves the id index,
        loses the manager's listener and its table entry under its raw source is removed,
        and the cache is refreshed. A root blessing keeps its "root" row, so a refresh still
        reads its rules when its target is this device (`RemoveRawRow`). */
    method OnBlessingRecordRemoved(key: string)
      requires Registry() && KeysResolvable()
      modifies this`blessings, this`table, Blessings`listeners
      modifies this`cache, this`nearest, this`permissionEvents, this`lastRules
      ensures Registry() && Blessings == old(Blessings)
      ensures blessings == old(blessings) - {key}
      ensures key !in old(blessings) ==> Unchanged() && CurrentView() == old(CurrentView())
      ensures key in old(blessings) ==> Unlisted(old(blessings[key])) && Refreshed()
    {
      var removed := DropBlessing(key);
      if removed {
        Refresh();
      }
    }

    /** The blessing under `key` has its raw-source table entry removed and no longer holds
        the manager's listener; no other listener changed. */
    twostate predicate Unlisted(b: Blessing)
      reads this`Blessings, this`table, Blessings`listeners, b`listeners
    {
      && table == RemoveRawRow(old(table), b.source, b.target)
      && b.listeners == old(b.listeners) - {ManagerLink}
      && forall x | x in Blessings && x in old(Blessings) && x != b :: x.listeners == old(x.listeners)
    }

    /** The index work of onChildRemoved, before its refresh. */
    method DropBlessing(key: string) returns (removed: bool)
      requires Registry()
      modifies this`blessings, this`table, Blessings`listeners
      ensures Registry() && Blessings == old(Blessings)
      ensures blessings == old(blessings) - {key}
      ensures removed <==> key in old(blessings)
      ensures !removed ==> Unchanged()
      ensures removed ==> Unlisted(old(blessings[key]))
    {
      if key !in blessings {
        return false;
      }
      var b := blessings[key];
      Unindex(key);
      var _ := b.RemoveListener(ManagerLink);
      return true;
    }

    /** mBlessings.remove(key) and mBlessingsTable.remove(source, target) under the raw
        source of the blessing it held: a root blessing's "root" row is left in place. */
    method Unindex(key: string)
      requires Registry() && key in blessings
      modifies this`blessings, this`table
      ensures Registry() && blessings == old(blessings) - {key}
      ensures table == RemoveRawRow(old(table), old(blessings[key]).source, old(blessings[key]).target)
    {
      var b := blessings[key];
      blessings, table := blessings - {key}, RemoveRawRow(table, b.source, b.target);
      RegistryKept();
    }

    /** A call on an outside blessing listener, logged. */
    method CallObserver(e: BlessingEvent)
      requires KeysResolvable()
      modifies this`blessingEvents
      ensures blessingEvents == old(blessingEvents) + [e]
      ensures Listening() == old(Listening()) && Writes() == old(Writes())
      ensures ReceivedRules() == old(ReceivedRules()) && ListenedPaths() == old(ListenedPaths())
      ensures CascadedFrom(old(CurrentView()), {(e.blessing, Observer(e.observer))}, e.Removed?)
    {
      blessingEvents := blessingEvents + [e];
      assert blessingEvents[|old(blessingEvents)|..] == [e];
      ElementsOne(e);
      assert ObserverEvents({(e.blessing, Observer(e.observer))}, e.Removed?) == {e};
    }

    /** bless(target): the root blessing's grant to `target`. It is refused exactly when
        `target` is this device's own id and no grant to it is indexed yet. */
    method Bless(target: string) returns (r: Result<Blessing, BlessError>)
      requires Valid()
      modifies this`Blessings, this`blessings, this`table, Blessings`listeners
      ensures Valid()
      ensures r.Err? <==> (id, target) !in old(table) && target == id
      ensures r.Err? ==> Unchanged()
      ensures (id, target) in old(table) ==> r == Ok(old(table[(id, target)])) && Unchanged()
      ensures r.Ok? ==> table == old(table)[(id, target) := r.value] && r.value in Blessings
      ensures (id, target) !in old(table) && r.Ok? ==>
        && Registered(r.value, id, target)
        && r.value.id == id + "_" + target && r.value.source == Some(id) && r.value.target == target
    {
      r := rootBlessing.Bless(target);
    }

    /** The request tables and the request listener log are as they were, and so is the
        blessing registry. */
    twostate predicate RequestsUnchanged()
      reads this`requests, this`subscriptions, this`requestEvents
      reads this`Blessings, this`blessings, this`table, Blessings`listeners
    {
      && requests == old(requests) && subscriptions == old(subscriptions)
      && requestEvents == old(requestEvents) && Unchanged()
    }

    /** onRequestUpdated(snapshot): a record that exists, names a path and comes from another
        device is gated on getPermission of its path; unless it holds every flag the request
        asks for the request is dropped, and otherwise it is stored and offered (`Offer`). */
    method OnRequestUpdated(snapshot: Option<PermissionRequest>) returns (ghost permission: Mask, ghost ids: seq<string>)
      requires Valid()
      modifies this`cache, this`requests, this`subscriptions, this`requestEvents
      modifies this`Blessings, this`blessings, this`table, Blessings`listeners
      ensures Valid()
      ensures snapshot.None? || snapshot.value.path.None? || snapshot.value.source == id ==>
        cache == old(cache) && RequestsUnchanged()
      ensures snapshot.Some? && snapshot.value.path.Some? && snapshot.value.source != id ==>
        var request := snapshot.value;
        && (request.path in old(cache) ==> permission == old(cache)[request.path] && cache == old(cache))
        && (request.path !in old(cache) ==>
              && cache == old(cache)[request.path := permission]
              && Enumerates(ids, old(blessings).Keys) && permission == old(CombinedOver(request.path, ids)))
        && (!Within(request.mask, permission) ==> RequestsUnchanged())
        && (Within(request.mask, permission) ==> Dispatched(request))
    {
      if snapshot.None? {
        return NONE, [];
      }
      var request := snapshot.value;
      if request.path.None? || request.source == id {
        return NONE, [];
      }
      var v;
      v, ids := LookUp(request.path);
      permission := v;
      Admit(request, v);
    }

    /** The gate of onRequestUpdated, once getPermission found `v` for the request's path
        (and cached it): the request is dropped unless `v` holds every flag it asks for. */
    method Admit(request: PermissionRequest, v: Mask)
      requires Valid() && request.source != id && request.path.Some?
      modifies this`cache, this`requests, this`subscriptions, this`requestEvents
      modifies this`Blessings, this`blessings, this`table, Blessings`listeners
      ensures Valid()
      ensures cache == if request.path in old(cache) then old(cache) else old(cache)[request.path := v]
      ensures !Within(request.mask, v) ==> RequestsUnchanged()
      ensures Within(request.mask, v) ==> Dispatched(request)
    {
      if And(v, request.mask) == request.mask {
        Offer(request, v);
      } else {
        Remember(request.path, v);
      }
    }

    /** What offering `request` leaves: it is stored under its id, and the listeners
        subscribed to its id were each offered it once, keeping their subscription only when
        they accepted it; when none was subscribed, every registration its path matches was
        offered it once, and the listeners that accepted subscribed. Each was handed the
        root blessing's grant to the request's source. */
    twostate predicate Dispatched(request: PermissionRequest)
      requires request.path.Some?
      reads this`requests, this`subscriptions, this`requestEvents, this`requestListeners
      reads this`Blessings, this`blessings, this`table, Blessings`listeners
    {
      var offered := Subscribers(old(subscriptions), request.id) != {} || Matching(requestListeners, request.path.value) != {};
      && requests == old(requests)[request.id := request]
      && requestListeners == old(requestListeners)
      && (!offered ==> subscriptions == old(subscriptions) && requestEvents == old(requestEvents) && Unchanged())
      && (offered ==>
            && (id, request.source) in table
            && OfferLog(old(subscriptions), subscriptions, old(requestEvents), requestEvents,
                        requestListeners, accepts, request, table[(id, request.source)]))
    }

    /** The storing and offering half of onRequestUpdated, for a request admitted with the
        value `v` getPermission found for its path, which getPermission caches first. The
        source's blessing is obtained once for all the listeners offered the request, as
        bless returns the same blessing on every later call. */
    method Offer(request: PermissionRequest, v: Mask)
      requires Valid() && request.source != id && request.path.Some?
      modifies this`cache, this`requests, this`subscriptions, this`requestEvents
      modifies this`Blessings, this`blessings, this`table, Blessings`listeners
      ensures Valid() && Dispatched(request)
      ensures cache == if request.path in old(cache) then old(cache) else old(cache)[request.path := v]
    {
      StoreRequest(request, v);
      if Subscribers(subscriptions, request.id) == {} && Matching(requestListeners, request.path.value) == {} {
        return;
      }
      OfferTo(request);
    }

    /** The offering itself, once someone is subscribed to the request or registered under
        one of its path's expansions. */
    method OfferTo(request: PermissionRequest)
      requires Valid() && request.source != id && request.path.Some?
      modifies this`subscriptions, this`requestEvents
      modifies this`Blessings, this`blessings, this`table, Blessings`listeners
      ensures Valid() && (id, request.source) in table
      ensures OfferLog(old(subscriptions), subscriptions, old(requestEvents), requestEvents,
                       requestListeners, accepts, request, table[(id, request.source)])
    {
      var b := BlessSource(request.source);
      var subs, log := DeliverRequest(subscriptions, requestEvents, requestListeners, accepts, request, b);
      SetOffers(subs, log);
    }

    /** What withdrawing `request` leaves: when someone was subscribed to its id, every such
        subscription is dropped and each of those listeners is handed the request with the
        root blessing's grant to its source; otherwise nothing changes. */
    twostate predicate Withdrew(request: PermissionRequest)
      reads this`subscriptions, this`requestEvents
      reads this`Blessings, this`blessings, this`table, Blessings`listeners
    {
      var subscribed := Subscribers(old(subscriptions), request.id);
      && (subscribed == {} ==> subscriptions == old(subscriptions) && requestEvents == old(requestEvents) && Unchanged())
      && (subscribed != {} ==>
            && (id, request.source) in table
            && WithdrawLog(old(subscriptions), subscriptions, old(requestEvents), requestEvents, request, table[(id, request.source)]))
    }

    /** onRequestRemoved(snapshot): the key is dropped from the requests; a record without a
        value is the null dereference the source fails with next; a record from another device
        is withdrawn from the listeners subscribed to its id. */
    method OnRequestRemoved(key: string, snapshot: Option<PermissionRequest>) returns (r: Result<(), RequestError>)
      requires Valid()
      modifies this`requests, this`subscriptions, this`requestEvents
      modifies this`Blessings, this`blessings, this`table, Blessings`listeners
      ensures Valid() && requests == old(requests) - {key}
      ensures r.Err? <==> snapshot.None?
      ensures snapshot.None? || snapshot.value.source == id ==>
        subscriptions == old(subscriptions) && requestEvents == old(requestEvents) && Unchanged()
      ensures snapshot.Some? && snapshot.value.source != id ==> Withdrew(snapshot.value)
    {
      if snapshot.None? {
        DropRequest(key);
        return Err(MissingValue);
      }
      var request := snapshot.value;
      r := Ok(());
      if request.source != id && Subscribers(subscriptions, request.id) != {} {
        Withdraw(request);
      }
      DropRequest(key);
    }

    /** The withdrawal of a request from another device with subscribers: the root blessing's
        grant to its source, and the call on each subscribed listener. The requests are not
        read, so dropping the key before (as the source does) or after is the same. */
    method Withdraw(request: PermissionRequest)
      requires Valid() && request.source != id && Subscribers(subscriptions, request.id) != {}
      modifies this`subscriptions, this`requestEvents
      modifies this`Blessings, this`blessings, this`table, Blessings`listeners
      ensures Valid() && requests == old(requests) && Withdrew(request)
    {
      var b := BlessSource(request.source);
      var subs, log := WithdrawRequest(subscriptions, requestEvents, request, b);
      SetOffers(subs, log);
    }

    /** requests.remove(key). */
    method DropRequest(key: string)
      requires Valid()
      modifies this`requests
      ensures Valid() && requests == old(requests) - {key}
    {
      requests := requests - {key};
    }

    /** addOnRequestListener(path, listener): the registration is added, and every stored
        request is offered to the new listener, with the root blessing's grant to its source;
        the listener subscribes to each one it accepts. */
    method AddOnRequestListener(path: Path, listener: nat)
      requires Valid()
      modifies this`requestListeners, this`subscriptions, this`requestEvents
      modifies this`Blessings, this`blessings, this`table, Blessings`listeners
      ensures Valid() && requests == old(requests) && requestListeners == old(requestListeners) + {(path, listener)}
      ensures KeepsEntries(old(table), table) && table.Keys == old(table).Keys + Sources(requests, requests.Keys, id)
      ensures subscriptions == old(subscriptions) + AcceptedKeys(listener, accepts, requests, requests.Keys)
      ensures LoggedAfter(requestEvents, old(requestEvents), OffersOf(listener, requests, requests.Keys, id, table), |requests.Keys|)
    {
      requestListeners := requestListeners + {(path, listener)};
      OfferAllStored(listener);
    }

    /** The stored requests, each offered to the new listener. */
    method OfferAllStored(listener: nat)
      requires Valid()
      modifies this`subscriptions, this`requestEvents
      modifies this`Blessings, this`blessings, this`table, Blessings`listeners
      ensures Valid() && requests == old(requests)
      ensures KeepsEntries(old(table), table) && table.Keys == old(table).Keys + Sources(requests, requests.Keys, id)
      ensures subscriptions == old(subscriptions) + AcceptedKeys(listener, accepts, requests, requests.Keys)
      ensures LoggedAfter(requestEvents, old(requestEvents), OffersOf(listener, requests, requests.Keys, id, table), |requests.Keys|)
    {
      OfferingNone(listener, accepts, requests, id, table, subscriptions);
      OfferStored(listener, table, subscriptions, requestEvents, {}, requests.Keys, subscriptions, []);
    }

    /** addOnRequestListener's loop over the stored requests, on local copies of the
        subscriptions and the call log: the requests under `todo` are still to be offered,
        and the copies are stored once none is left. */
    method OfferStored(listener: nat, ghost t0: map<(string, string), Blessing>, ghost s0: set<(string, nat)>, ghost log0: seq<RequestEvent>,
                       ghost done: set<string>, todo: set<string>, subs: set<(string, nat)>, calls: seq<RequestEvent>)
      requires done <= requests.Keys && todo == requests.Keys - done
      requires Offering(listener, t0, s0, done, subs, calls) && requestEvents == log0
      modifies this`subscriptions, this`requestEvents
      modifies this`Blessings, this`blessings, this`table, Blessings`listeners
      ensures Valid() && requests == old(requests)
      ensures KeepsEntries(t0, table) && table.Keys == t0.Keys + Sources(requests, requests.Keys, id)
      ensures subscriptions == s0 + AcceptedKeys(listener, accepts, requests, requests.Keys)
      ensures LoggedAfter(requestEvents, log0, OffersOf(listener, requests, requests.Keys, id, table), |requests.Keys|)
      decreases todo
    {
      if todo == {} {
        assert forall k | k in requests :: k !in todo;
        assert done == requests.Keys;
        FinishOffers(listener, t0, s0, subs, calls);
        return;
      }
      var k :| k in todo;
      var s1, c1 := OfferOne(listener, t0, s0, done, subs, calls, k);
      OfferStored(listener, t0, s0, log0, done + {k}, todo - {k}, s1, c1);
    }

    /** The end of addOnRequestListener's loop: the subscriptions and the calls made are stored. */
    method FinishOffers(listener: nat, ghost t0: map<(string, string), Blessing>, ghost s0: set<(string, nat)>,
                        subs: set<(string, nat)>, calls: seq<RequestEvent>)
      requires Offering(listener, t0, s0, requests.Keys, subs, calls)
      modifies this`subscriptions, this`requestEvents
      ensures Valid() && requests == old(requests)
      ensures KeepsEntries(t0, table) && table.Keys == t0.Keys + Sources(requests, requests.Keys, id)
      ensures subscriptions == s0 + AcceptedKeys(listener, accepts, requests, requests.Keys)
      ensures LoggedAfter(requestEvents, old(requestEvents), OffersOf(listener, requests, requests.Keys, id, table), |requests.Keys|)
    {
      OfferingDone(listener, accepts, requests, id, t0, table, s0, subs, calls, requestEvents);
      SetOffers(subs, requestEvents + calls);
    }

    /** The state of addOnRequestListener's loop after offering the requests under `done`. */
    ghost predicate Offering(listener: nat, t0: map<(string, string), Blessing>, s0: set<(string, nat)>,
                             done: set<string>, subs: set<(string, nat)>, calls: seq<RequestEvent>)
      reads this`Blessings, this`blessings, this`table, Blessings`listeners, this`rootBlessing, this`requests
    {
      Valid() && OfferingLog(listener, accepts, requests, done, id, t0, table, s0, subs, calls)
    }

    /** One turn of addOnRequestListener's loop: the request under `k` is offered. */
    method OfferOne(listener: nat, ghost t0: map<(string, string), Blessing>, ghost s0: set<(string, nat)>, ghost done: set<string>,
                    subs: set<(string, nat)>, calls: seq<RequestEvent>, k: string)
      returns (subs': set<(string, nat)>, calls': seq<RequestEvent>)
      requires Offering(listener, t0, s0, done, subs, calls) && k in requests && k !in done
      modifies this`Blessings, this`blessings, this`table, Blessings`listeners
      ensures Offering(listener, t0, s0, done + {k}, subs', calls')
      ensures fresh(Blessings - old(Blessings))
    {
      ghost var t1 := table;
      var request := requests[k];
      var b := BlessSource(request.source);
      OfferingStep(listener, accepts, requests, done, id, t0, t1, table, s0, subs, calls, k);
      subs' := if accepts(listener, request) then subs + {(k, listener)} else subs;
      calls' := calls + [Offered(listener, request, b)];
    }

    /** addPermissionEventListener(path, listener): the listener is registered at `path`, and
        when the path resolves against the cached paths to one of them it is routed there
        and handed that path's value; otherwise it is handed FLAG_DEFAULT. A path with a
        leading delimiter that is not cached throws once the listener is registered. */
    method AddPermissionEventListener(path: Path, listener: nat) returns (r: Result<nat, PathError>)
      modifies this`permissionListeners, this`nearest, this`permissionEvents
      ensures permissionListeners == old(permissionListeners) + {(path, listener)}
      ensures r.Err? <==> NearestAncestor(path, cache.Keys).Err?
      ensures r.Err? ==> nearest == old(nearest) && permissionEvents == old(permissionEvents)
      ensures r.Ok? ==>
        && r.value == listener
        && var n := NearestAncestor(path, cache.Keys).value;
           && (n.Some? ==> n in cache)
           && nearest == old(nearest) + (if n.Some? then {(n, path)} else {})
           && permissionEvents == old(permissionEvents) + [(listener, if n.Some? then cache[n] else FLAG_DEFAULT)]
      ensures old(Refreshed()) && Resolvable(path) ==> Refreshed()
    {
      ghost var listened := ListenedPaths();
      var nca := NearestAncestor(path, cache.Keys);
      if nca.Err? {
        permissionListeners := permissionListeners + {(path, listener)};
        return Err(nca.error);
      }
      NearestAncestorSpec(path, cache.Keys);
      var current := if nca.value.Some? then cache[nca.value] else FLAG_DEFAULT;
      var routed := if nca.value.Some? then {(nca.value, path)} else {};
      permissionListeners, nearest, permissionEvents :=
        permissionListeners + {(path, listener)}, nearest + routed, permissionEvents + [(listener, current)];
      r := Ok(listener);
      assert ListenedPaths() == listened + {path};
      if old(Refreshed()) && Resolvable(path) {
        RulesKept();
        RebuiltListen(cache, old(nearest), listened, lastRules, path);
      }
    }

    /** removePermissionEventListener(path, listener): the registration is removed, and so is
        the routing entry of `path` under its nearest cached path, whether or not another
        listener still listens at `path`. */
    method RemovePermissionEventListener(path: Path, listener: nat) returns (r: Result<(), PathError>)
      modifies this`permissionListeners, this`nearest
      ensures permissionListeners == old(permissionListeners) - {(path, listener)}
      ensures r.Err? <==> NearestAncestor(path, cache.Keys).Err?
      ensures r.Err? ==> nearest == old(nearest)
      ensures r.Ok? ==> nearest == old(nearest) - {(NearestAncestor(path, cache.Keys).value, path)}
      ensures old(Refreshed()) && Resolvable(path) && path !in ListenedPaths() ==> Refreshed()
    {
      ghost var listened := ListenedPaths();
      permissionListeners := permissionListeners - {(path, listener)};
      var nca := NearestAncestor(path, cache.Keys);
      if nca.Err? {
        return Err(nca.error);
      }
      nearest := nearest - {(nca.value, path)};
      r := Ok(());
      if old(Refreshed()) && Resolvable(path) && path !in ListenedPaths() {
        assert ListenedPaths() == listened - {path};
        RebuiltUnlisten(cache, old(nearest), listened, lastRules, path);
      }
    }

    /** removeOnRequestListener(path, listener): the registration is removed, and so is the
        listener's subscription to every request. */
    method RemoveOnRequestListener(path: Path, listener: nat)
      modifies this`requestListeners, this`subscriptions
      ensures requestListeners == old(requestListeners) - {(path, listener)}
      ensures subscriptions == set x | x in old(subscriptions) && x.1 != listener
    {
      requestListeners := requestListeners - {(path, listener)};
      var keys := set x | x in subscriptions :: x.0;
      ghost var s0, done := subscriptions, {};
      while keys != {}
        invariant subscriptions == set x | x in s0 && !(x.0 in done && x.1 == listener)
        invariant keys == (set x | x in s0 :: x.0) - done
        invariant requestListeners == old(requestListeners) - {(path, listener)}
        decreases keys
      {
        var key :| key in keys;
        subscriptions := subscriptions - {(key, listener)};
        keys, done := keys - {key}, done + {key};
      }
      forall x | x in s0
        ensures x.0 in done
      {
        assert x.0 in (set y | y in s0 :: y.0);
      }
    }

    /** getRequests(path): the stored requests whose path expands to `path`. */
    method GetRequests(path: string) returns (result: set<PermissionRequest>)
      ensures result == RequestsFor(requests, path)
    {
      result := {};
      var keys := requests.Keys;
      ghost var done := {};
      while keys != {}
        invariant done <= requests.Keys && keys == requests.Keys - done
        invariant result == RequestsAt(requests, done, path)
        decreases keys
      {
        var k :| k in keys;
        var request := requests[k];
        if request.path.Some? {
          var paths := GetAllPaths(request.path.value);
          if path in paths {
            result := result + {request};
          }
        }
        RequestsAtStep(requests, done, k, path);
        keys, done := keys - {k}, done + {k};
      }
    }

    /** finishRequest(rId): the request's record is removed from the store. */
    method FinishRequest(rId: string)
      modifies this`finished
      ensures finished == old(finished) + [rId]
    {
      finished := finished + [rId];
    }

    /** grantRequest(request): the root blessing's grant to the request's source takes the
        requested flags at the requested path, and the request's record is removed. When this
        device asks itself without a stored grant, bless throws its "already in the blessing
        hierarchy" exception, so grantRequest stops before writing anything. */
    method GrantRequest(request: PermissionRequest) returns (r: Result<Blessing, BlessError>)
      requires Valid()
      modifies this`Blessings, this`blessings, this`table, Blessings`listeners, this`finished
      modifies Blessings`permissions, Blessings`writes
      ensures Valid()
      ensures r.Err? <==> (id, request.source) !in old(table) && request.source == id
      ensures r.Err? ==> Unchanged() && finished == old(finished)
      ensures r.Ok? ==> table == old(table)[(id, request.source) := r.value] && finished == old(finished) + [request.id]
      ensures r.Ok? && (id, request.source) in old(table) ==>
        && r.value.permissions == old(table[(id, request.source)].permissions)[request.path := request.mask]
        && r.value.writes == old(table[(id, request.source)].writes) + [SetRule(request.path, request.mask)]
      ensures r.Ok? && (id, request.source) !in old(table) ==>
        && r.value.permissions == map[request.path := request.mask]
        && r.value.writes == [SetField("id", r.value.id), SetField("source", id), SetField("target", request.source),
                              SetRule(request.path, request.mask)]
      ensures forall x | x in old(Blessings) && (r.Err? || x != r.value) ::
        x.permissions == old(x.permissions) && x.writes == old(x.writes)
    {
      r := BlessGrantee(request.source);
      if r.Err? {
        return;
      }
      r.value.SetPermissions(request.path, request.mask);
      FinishRequest(request.id);
    }

    /** bless(target) as grantRequest sees it: the grant kept in the table, or a new one that
        has written only its own fields. */
    method BlessGrantee(target: string) returns (r: Result<Blessing, BlessError>)
      requires Valid()
      modifies this`Blessings, this`blessings, this`table, Blessings`listeners
      ensures Valid()
      ensures r.Err? <==> (id, target) !in old(table) && target == id
      ensures r.Err? ==> Unchanged()
      ensures r.Ok? ==> table == old(table)[(id, target) := r.value]
      ensures r.Ok? && (id, target) in old(table) ==> r.value == old(table[(id, target)])
      ensures r.Ok? && (id, target) !in old(table) ==>
        && fresh(r.value) && r.value.permissions == map[]
        && r.value.writes == [SetField("id", r.value.id), SetField("source", id), SetField("target", target)]
    {
      r := Bless(target);
    }

    /** request(path, group): the active builder for (group, path), or a new one under the
        record key `key` the store pushes, which becomes the active one. */
    method Request(path: string, group: string, key: string) returns (builder: RequestBuilder)
      modifies this`activeRequests
      ensures (group, path) in old(activeRequests) ==>
        builder == old(activeRequests)[(group, path)] && activeRequests == old(activeRequests)
      ensures (group, path) !in old(activeRequests) ==>
        builder == RequestBuilder(key, path, id) && activeRequests == old(activeRequests)[(group, path) := builder]
    {
      if (group, path) in activeRequests {
        return activeRequests[(group, path)];
      }
      builder := RequestBuilder(key, path, id);
      activeRequests := activeRequests[(group, path) := builder];
    }

    /** cancelRequest(group, path): the active builder for (group, path), if any, is removed
        and cancelled. */
    method CancelRequest(group: string, path: string)
      modifies this`activeRequests, this`cancelled
      ensures activeRequests == old(activeRequests) - {(group, path)}
      ensures cancelled == old(cancelled) + (if (group, path) in old(activeRequests) then [old(activeRequests)[(group, path)]] else [])
    {
      if (group, path) in activeRequests {
        cancelled := cancelled + [activeRequests[(group, path)]];
      }
      activeRequests := activeRequests - {(group, path)};
    }

    /** cancelRequests(group): cancelRequest for every path of the group's row, taken from a
        copy of the row: the row is left empty and each of its builders is cancelled once. */
    method CancelRequests(group: string)
      modifies this`activeRequests, this`cancelled
      ensures activeRequests == map k | k in old(activeRequests) && k.0 != group :: old(activeRequests)[k]
      ensures LoggedAfter(cancelled, old(cancelled), set k | k in old(activeRequests) && k.0 == group :: old(activeRequests)[k],
                          |RowPaths(old(activeRequests), group)|)
    {
      ghost var a0, c0 := activeRequests, cancelled;
      var todo := RowPaths(activeRequests, group);
      RowAll(a0, group);
      assert RowLeft(a0, group, {}) == a0 && RowBuilders(a0, group, {}) == {} && Elements<RequestBuilder>([]) == {};
      CancelEach(group, a0, c0, {}, todo, []);
    }

    /** The loop of cancelRequests as a recursion over the paths `todo` of the row's copy not
        yet cancelled; those `done` were, their builders logged as `added`. */
    method CancelEach(group: string, ghost a0: map<(string, string), RequestBuilder>, ghost c0: seq<RequestBuilder>,
                      ghost done: set<string>, todo: set<string>, ghost added: seq<RequestBuilder>)
      requires todo == RowPaths(a0, group) - done && done <= RowPaths(a0, group)
      requires activeRequests == RowLeft(a0, group, done)
      requires cancelled == c0 + added && |added| == |done| && Elements(added) == RowBuilders(a0, group, done)
      modifies this`activeRequests, this`cancelled
      ensures activeRequests == RowLeft(a0, group, RowPaths(a0, group))
      ensures LoggedAfter(cancelled, c0, RowBuilders(a0, group, RowPaths(a0, group)), |RowPaths(a0, group)|)
      decreases todo
    {
      if todo == {} {
        assert done == RowPaths(a0, group);
        LoggedCalls(c0, added, RowBuilders(a0, group, done), |done|);
        return;
      }
      var p :| p in todo;
      RowStep(a0, group, done, p);
      LogStep(added, RowBuilders(a0, group, done), a0[(group, p)]);
      CancelRequest(group, p);
      CancelEach(group, a0, c0, done + {p}, todo - {p}, added + [a0[(group, p)]]);
    }

    /** requests.put(id, request), for a request from another device naming a path. */
    method StoreRequest(request: PermissionRequest, v: Mask)
      requires Valid() && request.source != id && request.path.Some?
      modifies this`cache, this`requests
      ensures Valid() && requests == old(requests)[request.id := request]
      ensures cache == if request.path in old(cache) then old(cache) else old(cache)[request.path := v]
    {
      cache, requests := (if request.path in cache then cache else cache[request.path := v]), requests[request.id := request];
    }

    /** The blessing bless(source) hands an outside listener, for a source other than this
        device, where bless cannot fail. */
    method BlessSource(source: string) returns (b: Blessing)
      requires Valid() && source != id
      modifies this`Blessings, this`blessings, this`table, Blessings`listeners
      ensures Valid() && (id, source) in table && b == table[(id, source)]
      ensures KeepsEntries(old(table), table) && table.Keys == old(table).Keys + {(id, source)}
      ensures fresh(Blessings - old(Blessings))
    {
      var r := Bless(source);
      b := r.value;
    }

    /** Stores the subscriptions and the listener call log an offer or a withdrawal left. */
    method SetOffers(subs: set<(string, nat)>, log: seq<RequestEvent>)
      modifies this`subscriptions, this`requestEvents
      ensures subscriptions == subs && requestEvents == log
      ensures old(Valid()) ==> Valid()
    {
      subscriptions, requestEvents := subs, log;
    }

    /** getReceivedBlessings(): the blessings in this device's column of the table. */
    function ReceivedBlessings(): (r: set<Blessing>)
      reads this`table
      ensures forall k | k in table && k.1 == id :: table[k] in r
      ensures forall b | b in r :: exists k | k in table :: k.1 == id && table[k] == b
    {
      set k | k in table && k.1 == id :: table[k]
    }
  }
}
