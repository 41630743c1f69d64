/** The reasoning behind `updateUserChangesSubscriptions`, on the stored maps: who subscribes to
    a (host, key) according to the mirrors, the relation its host loop keeps, and the federation
    report it builds. */
module Reconciler {

  import opened Wrappers
  import opened Store
  import opened HostIndex
  import Tokens

  type Mirrors = map<UserId, Stored<Subs>>
  type Hosts = map<Host, Stored<HostRecord>>

  /** One `host.changes.subscription` request to the observed host: the keys that gained their
      first observer here and the keys that lost their last one. */
  datatype FedCall = FedCall(host: Host, keysToAdd: set<Key>, keysToRemove: set<Key>)

  ghost function MirrorIn(mirrors: Mirrors, y: UserId): Subs
  {
    if y in mirrors then mirrors[y].value else map[]
  }

  /** The users whose mirror lists `key` under `h`. */
  ghost function SubscribersIn(mirrors: Mirrors, h: Host, key: Key): set<UserId>
  {
    set y | y in mirrors && h in mirrors[y].value && key in mirrors[y].value[h]
  }

  /** The host record as read: a missing one reads as empty. */
  ghost function HostIn(hosts: Hosts, h: Host): HostRecord
  {
    if h in hosts then hosts[h].value else EmptyHost
  }

  /** Every stored host record is tagged `q`, well formed, and has keys (one without keys is
      deleted when written). */
  ghost predicate HostsOk(hosts: Hosts)
  {
    forall h :: h in hosts ==> hosts[h].tag == HostTag && WellFormed(hosts[h].value) && hosts[h].value.keys != map[]
  }

  /** The index invariant: for every host and key, the users at the positions listed in the host
      record are exactly the users whose mirror lists that key. */
  ghost predicate Indexed(hosts: Hosts, mirrors: Mirrors)
  {
    forall h, key :: Observers(HostIn(hosts, h), key) == SubscribersIn(mirrors, h, key)
  }

  /** Overwriting `x`'s mirror with `s` changes the subscribers of a pair by `x` alone. */
  lemma SubscribersAfter(mirrors: Mirrors, x: UserId, s: Subs, h: Host, key: Key)
    ensures x in SubscribersIn(mirrors, h, key) <==> (h, key) in Tokens.Pairs(MirrorIn(mirrors, x))
    ensures SubscribersIn(WriteMirror(mirrors, x, s), h, key) ==
      (SubscribersIn(mirrors, h, key) - {x}) + (if (h, key) in Tokens.Pairs(s) then {x} else {})
  {
    var m1 := WriteMirror(mirrors, x, s);
    forall y ensures y in SubscribersIn(m1, h, key) <==>
      y in (SubscribersIn(mirrors, h, key) - {x}) + (if (h, key) in Tokens.Pairs(s) then {x} else {})
    {
      if y != x {
        assert y in m1 <==> y in mirrors;
      } else if s != map[] {
        assert m1[x].value == s;
      }
    }
  }

  /** Reading a mirror back after overwriting `x`'s. */
  lemma MirrorInAfter(mirrors: Mirrors, x: UserId, s: Subs, y: UserId)
    ensures MirrorIn(WriteMirror(mirrors, x, s), y) == if y == x then s else MirrorIn(mirrors, y)
  {
  }

  /** A subscriber set changed from empty to non-empty or back. */
  ghost predicate Transition(m0: Mirrors, m1: Mirrors, h: Host, key: Key)
  {
    (SubscribersIn(m0, h, key) == {}) != (SubscribersIn(m1, h, key) == {})
  }

  /** The federation report `notices` covers exactly the transitions of the hosts in `done`: one
      call per host, only for hosts that have a transition, each naming exactly the keys that
      went from no subscriber to some (`keysToAdd`) and from some to none (`keysToRemove`). */
  ghost predicate Reported(notices: seq<FedCall>, m0: Mirrors, m1: Mirrors, done: set<Host>)
  {
    NoticeHostsDistinct(notices) && NoticesWithin(notices, done) &&
    ReportedKeys(notices, m0, m1) && TransitionsCovered(notices, m0, m1, done)
  }

  ghost predicate NoticeHostsDistinct(notices: seq<FedCall>)
  {
    forall i, j :: 0 <= i < j < |notices| ==> notices[i].host != notices[j].host
  }

  /** Each call goes to a visited host and names at least one key. */
  ghost predicate NoticesWithin(notices: seq<FedCall>, done: set<Host>)
  {
    forall i :: 0 <= i < |notices| ==>
      notices[i].host in done && (notices[i].keysToAdd != {} || notices[i].keysToRemove != {})
  }

  /** Every visited host with a transition has a call. */
  ghost predicate TransitionsCovered(notices: seq<FedCall>, m0: Mirrors, m1: Mirrors, done: set<Host>)
  {
    forall h, key :: h in done && Transition(m0, m1, h, key) ==>
      exists i :: 0 <= i < |notices| && notices[i].host == h
  }

  ghost predicate ReportedKeys(notices: seq<FedCall>, m0: Mirrors, m1: Mirrors)
  {
    forall i, key :: 0 <= i < |notices| ==>
      (key in notices[i].keysToAdd <==>
        SubscribersIn(m0, notices[i].host, key) == {} && SubscribersIn(m1, notices[i].host, key) != {}) &&
      (key in notices[i].keysToRemove <==>
        SubscribersIn(m0, notices[i].host, key) != {} && SubscribersIn(m1, notices[i].host, key) == {})
  }

  /** The hosts the reconciler visits: those with an added or a removed pair. */
  function DeltaHosts(cur: Subs, prev: Subs): set<Host>
  {
    Tokens.HostsIn(Tokens.Pairs(cur) - Tokens.Pairs(prev)) + Tokens.HostsIn(Tokens.Pairs(prev) - Tokens.Pairs(cur))
  }

  /** A host outside the delta keeps its subscribers when `x`'s mirror is overwritten. */
  lemma OutsideDelta(m0: Mirrors, x: UserId, s: Subs, h: Host, key: Key)
    requires h !in DeltaHosts(s, MirrorIn(m0, x))
    ensures SubscribersIn(WriteMirror(m0, x, s), h, key) == SubscribersIn(m0, h, key)
  {
    var prev := MirrorIn(m0, x);
    SubscribersAfter(m0, x, s, h, key);
    assert (h, key) !in Tokens.Pairs(s) - Tokens.Pairs(prev);
    assert (h, key) !in Tokens.Pairs(prev) - Tokens.Pairs(s);
  }

  ghost predicate HostsUntouched(hosts0: Hosts, hosts: Hosts, done: set<Host>)
  {
    forall h :: h !in done ==> (h in hosts <==> h in hosts0) && (h in hosts ==> hosts[h] == hosts0[h])
  }

  /** `u` is append-only: every stored record's user list extends the one it had. */
  ghost predicate UsersGrown(hosts0: Hosts, hosts: Hosts)
  {
    forall h :: h in hosts ==> HostIn(hosts0, h).users <= hosts[h].value.users
  }

  /** The relation the host loop keeps, with the hosts in `todo` still to visit: visited hosts
      are indexed for the new mirror, the others for the old one (outside the delta the two
      agree), hosts not visited are untouched, and `notices` reports the visited hosts. */
  ghost predicate HostLoop(hosts0: Hosts, hosts: Hosts, m0: Mirrors, x: UserId, s: Subs,
                           todo: set<Host>, notices: seq<FedCall>)
  {
    var m1 := WriteMirror(m0, x, s);
    var all := DeltaHosts(s, MirrorIn(m0, x));
    todo <= all && HostsOk(hosts) &&
    IndexedUpTo(hosts, m0, m1, todo) &&
    HostsUntouched(hosts0, hosts, all - todo) &&
    UsersGrown(hosts0, hosts) &&
    Reported(notices, m0, m1, all - todo)
  }

  /** Hosts in `todo` are indexed for the mirrors `m0`, all others for `m1`. */
  ghost predicate IndexedUpTo(hosts: Hosts, m0: Mirrors, m1: Mirrors, todo: set<Host>)
  {
    forall h, key :: Observers(HostIn(hosts, h), key) ==
      (if h in todo then SubscribersIn(m0, h, key) else SubscribersIn(m1, h, key))
  }

  lemma HostLoopInit(hosts0: Hosts, m0: Mirrors, x: UserId, s: Subs)
    requires HostsOk(hosts0) && Indexed(hosts0, m0)
    ensures HostLoop(hosts0, hosts0, m0, x, s, DeltaHosts(s, MirrorIn(m0, x)), [])
  {
    var all := DeltaHosts(s, MirrorIn(m0, x));
    forall h, key ensures Observers(HostIn(hosts0, h), key) ==
      (if h in all then SubscribersIn(m0, h, key) else SubscribersIn(WriteMirror(m0, x, s), h, key))
    {
      if h !in all { OutsideDelta(m0, x, s, h, key); }
    }
  }

  /** What one run of the host loop promises, for the mirrors `m0` before it, `x`'s
      subscriptions `s` and the report `notices`: the records stay well formed and become indexed
      for the mirrors with `x`'s mirror replaced by `s`; no user leaves a record's list; only hosts
      with an added or removed pair are touched; the report is exact; every transition is on such
      a host; and with no pair added or removed nothing changes and nothing is reported. */
  ghost predicate Reconciled(hosts0: Hosts, hosts1: Hosts, m0: Mirrors, x: UserId, s: Subs,
                             notices: seq<FedCall>)
  {
    var prev := MirrorIn(m0, x);
    var m1 := WriteMirror(m0, x, s);
    var all := DeltaHosts(s, prev);
    HostsOk(hosts1) && Indexed(hosts1, m1) &&
    UsersGrown(hosts0, hosts1) && HostsUntouched(hosts0, hosts1, all) &&
    Reported(notices, m0, m1, all) &&
    (forall h, key :: Transition(m0, m1, h, key) ==> h in all) &&
    (Tokens.Pairs(s) == Tokens.Pairs(prev) ==> hosts1 == hosts0 && notices == [])
  }

  /** With the mirror already current there is nothing to do: rewriting the mirror leaves the
      store as it is, and no host and no report is involved. */
  lemma NothingToReconcile(hosts: Hosts, m0: Mirrors, x: UserId)
    requires HostsOk(hosts) && Indexed(hosts, m0)
    requires x in m0 ==> m0[x].tag == MirrorTag && m0[x].value != map[]
    ensures WriteMirror(m0, x, MirrorIn(m0, x)) == m0
    ensures Reconciled(hosts, hosts, m0, x, MirrorIn(m0, x), [])
  {
    assert WriteMirror(m0, x, MirrorIn(m0, x)) == m0;
  }

  lemma HostLoopEnd(hosts0: Hosts, hosts: Hosts, m0: Mirrors, x: UserId, s: Subs, notices: seq<FedCall>)
    requires HostLoop(hosts0, hosts, m0, x, s, {}, notices)
    requires Tokens.Pairs(s) == Tokens.Pairs(MirrorIn(m0, x)) ==> hosts == hosts0 && notices == []
    ensures Reconciled(hosts0, hosts, m0, x, s, notices)
  {
    forall h, key | Transition(m0, WriteMirror(m0, x, s), h, key)
      ensures h in DeltaHosts(s, MirrorIn(m0, x))
    {
      if h !in DeltaHosts(s, MirrorIn(m0, x)) { OutsideDelta(m0, x, s, h, key); }
    }
  }

  /** What `ApplyHostDelta` promises about one host's step, gathered for the loop's proof. */
  ghost predicate DeltaApplied(hr: HostRecord, x: UserId, added: set<Key>, removed: set<Key>,
                               r: HostRecord, newKeys: set<Key>, goneKeys: set<Key>, changed: bool)
  {
    WellFormed(r) &&
    r.users == (if x in hr.users then hr.users else hr.users + [x]) &&
    (forall key :: Observers(r, key) == AfterDelta(hr, x, added, removed, key)) &&
    newKeys == added - hr.keys.Keys &&
    goneKeys == (set key | key in removed && key in hr.keys && Observers(hr, key) <= {x}) &&
    (changed <==>
      ((exists key :: key in added && x !in Observers(hr, key)) ||
       (exists key :: key in removed && x in Observers(hr, key))))
  }

  /** One visited host, with its record indexed for the old mirror: the step changes the record
      (so it is written), indexes it for the new mirror, and reports exactly the keys whose
      subscribers went from none to some and from some to none. */
  lemma HostStepFacts(m0: Mirrors, x: UserId, s: Subs, h: Host, hr: HostRecord,
                      r: HostRecord, newKeys: set<Key>, goneKeys: set<Key>, changed: bool)
    requires WellFormed(hr)
    requires forall key :: Observers(hr, key) == SubscribersIn(m0, h, key)
    requires h in DeltaHosts(s, MirrorIn(m0, x))
    requires DeltaApplied(hr, x, Tokens.KeysAt(Tokens.Pairs(s) - Tokens.Pairs(MirrorIn(m0, x)), h),
                          Tokens.KeysAt(Tokens.Pairs(MirrorIn(m0, x)) - Tokens.Pairs(s), h),
                          r, newKeys, goneKeys, changed)
    ensures changed
    ensures forall key :: Observers(r, key) == SubscribersIn(WriteMirror(m0, x, s), h, key)
    ensures forall key :: key in newKeys <==>
      SubscribersIn(m0, h, key) == {} && SubscribersIn(WriteMirror(m0, x, s), h, key) != {}
    ensures forall key :: key in goneKeys <==>
      SubscribersIn(m0, h, key) != {} && SubscribersIn(WriteMirror(m0, x, s), h, key) == {}
  {
    var prev := MirrorIn(m0, x);
    var m1 := WriteMirror(m0, x, s);
    var added := Tokens.KeysAt(Tokens.Pairs(s) - Tokens.Pairs(prev), h);
    var removed := Tokens.KeysAt(Tokens.Pairs(prev) - Tokens.Pairs(s), h);
    ObservedKeys(hr);
    forall key
      ensures Observers(r, key) == SubscribersIn(m1, h, key)
      ensures key in newKeys <==> SubscribersIn(m0, h, key) == {} && SubscribersIn(m1, h, key) != {}
      ensures key in goneKeys <==> SubscribersIn(m0, h, key) != {} && SubscribersIn(m1, h, key) == {}
      ensures key in added ==> x !in Observers(hr, key)
      ensures key in removed ==> x in Observers(hr, key)
    {
      KeyStep(m0, x, s, h, key, key in added, key in removed);
    }
    if h in Tokens.HostsIn(Tokens.Pairs(s) - Tokens.Pairs(prev)) {
      var k :| (h, k) in Tokens.Pairs(s) - Tokens.Pairs(prev);
      assert k in added;
    } else {
      var k :| (h, k) in Tokens.Pairs(prev) - Tokens.Pairs(s);
      assert k in removed;
    }
  }

  /** One key of a visited host: how its subscribers change, and when that is a transition. */
  lemma KeyStep(m0: Mirrors, x: UserId, s: Subs, h: Host, key: Key, isAdded: bool, isRemoved: bool)
    requires isAdded == ((h, key) in Tokens.Pairs(s) - Tokens.Pairs(MirrorIn(m0, x)))
    requires isRemoved == ((h, key) in Tokens.Pairs(MirrorIn(m0, x)) - Tokens.Pairs(s))
    ensures isAdded ==> x !in SubscribersIn(m0, h, key)
    ensures isRemoved ==> x in SubscribersIn(m0, h, key)
    ensures SubscribersIn(WriteMirror(m0, x, s), h, key) ==
      if isAdded then SubscribersIn(m0, h, key) + {x}
      else if isRemoved then SubscribersIn(m0, h, key) - {x}
      else SubscribersIn(m0, h, key)
    ensures (isAdded && SubscribersIn(m0, h, key) == {}) <==>
      SubscribersIn(m0, h, key) == {} && SubscribersIn(WriteMirror(m0, x, s), h, key) != {}
    ensures (isRemoved && SubscribersIn(m0, h, key) <= {x}) <==>
      SubscribersIn(m0, h, key) != {} && SubscribersIn(WriteMirror(m0, x, s), h, key) == {}
  {
    SubscribersAfter(m0, x, s, h, key);
  }

  /** The host visited in one iteration: what its step did, stated against the mirrors. */
  lemma HostVisit(hosts0: Hosts, hosts: Hosts, m0: Mirrors, x: UserId, s: Subs,
                  todo: set<Host>, notices: seq<FedCall>, h: Host,
                  r: HostRecord, newKeys: set<Key>, goneKeys: set<Key>, changed: bool)
    requires HostLoop(hosts0, hosts, m0, x, s, todo, notices)
    requires h in todo
    requires DeltaApplied(HostIn(hosts, h), x,
                          Tokens.KeysAt(Tokens.Pairs(s) - Tokens.Pairs(MirrorIn(m0, x)), h),
                          Tokens.KeysAt(Tokens.Pairs(MirrorIn(m0, x)) - Tokens.Pairs(s), h),
                          r, newKeys, goneKeys, changed)
    ensures changed && WellFormed(r) && HostIn(hosts, h).users <= r.users
    ensures VisitOutcome(m0, WriteMirror(m0, x, s), h, r, newKeys, goneKeys)
  {
    HostStepFacts(m0, x, s, h, HostIn(hosts, h), r, newKeys, goneKeys, changed);
  }

  /** The visited host's new record is indexed for the new mirrors, and the reported keys are
      exactly its transitions. */
  ghost predicate VisitOutcome(m0: Mirrors, m1: Mirrors, h: Host, r: HostRecord, newKeys: set<Key>, goneKeys: set<Key>)
  {
    (forall key :: Observers(r, key) == SubscribersIn(m1, h, key)) &&
    (forall key :: key in newKeys <==> SubscribersIn(m0, h, key) == {} && SubscribersIn(m1, h, key) != {}) &&
    (forall key :: key in goneKeys <==> SubscribersIn(m0, h, key) != {} && SubscribersIn(m1, h, key) == {})
  }

  /** The visited host written back, and its report appended when it has one. */
  lemma HostLoopStep(hosts0: Hosts, hosts: Hosts, m0: Mirrors, x: UserId, s: Subs,
                     todo: set<Host>, notices: seq<FedCall>, h: Host,
                     r: HostRecord, newKeys: set<Key>, goneKeys: set<Key>)
    requires HostLoop(hosts0, hosts, m0, x, s, todo, notices)
    requires h in todo && WellFormed(r) && HostIn(hosts, h).users <= r.users
    requires VisitOutcome(m0, WriteMirror(m0, x, s), h, r, newKeys, goneKeys)
    ensures HostLoop(hosts0, WriteHost(hosts, h, r), m0, x, s, todo - {h},
                     if newKeys != {} || goneKeys != {} then notices + [FedCall(h, newKeys, goneKeys)]
                     else notices)
  {
    var m1 := WriteMirror(m0, x, s);
    var all := DeltaHosts(s, MirrorIn(m0, x));
    IndexStep(hosts, m0, m1, todo, h, r);
    StoreStep(hosts0, hosts, all - todo, h, r);
    ReportStep(notices, m0, m1, all - todo, h, newKeys, goneKeys);
    assert all - (todo - {h}) == (all - todo) + {h};
  }

  /** Writing the visited host's new record moves it from the old index to the new one. */
  lemma IndexStep(hosts: Hosts, m0: Mirrors, m1: Mirrors, todo: set<Host>, h: Host, r: HostRecord)
    requires IndexedUpTo(hosts, m0, m1, todo)
    requires forall key :: Observers(r, key) == SubscribersIn(m1, h, key)
    ensures IndexedUpTo(WriteHost(hosts, h, r), m0, m1, todo - {h})
  {
    var hosts' := WriteHost(hosts, h, r);
    assert HostIn(hosts', h) == if r.keys == map[] then EmptyHost else r;
    forall h', key ensures Observers(HostIn(hosts', h'), key) ==
      (if h' in todo - {h} then SubscribersIn(m0, h', key) else SubscribersIn(m1, h', key))
    {
      if h' != h { assert HostIn(hosts', h') == HostIn(hosts, h'); }
    }
  }

  /** Writing the visited host keeps the stored records well formed, touches no other host, and
      only extends `u`. */
  lemma StoreStep(hosts0: Hosts, hosts: Hosts, done: set<Host>, h: Host, r: HostRecord)
    requires HostsOk(hosts) && HostsUntouched(hosts0, hosts, done) && UsersGrown(hosts0, hosts)
    requires h !in done && WellFormed(r) && HostIn(hosts, h).users <= r.users
    ensures HostsOk(WriteHost(hosts, h, r))
    ensures HostsUntouched(hosts0, WriteHost(hosts, h, r), done + {h})
    ensures UsersGrown(hosts0, WriteHost(hosts, h, r))
  {
    assert HostIn(hosts, h) == HostIn(hosts0, h);
  }

  /** Appending the report of a newly visited host keeps `Reported`. */
  lemma ReportStep(notices: seq<FedCall>, m0: Mirrors, m1: Mirrors, done: set<Host>, h: Host,
                   newKeys: set<Key>, goneKeys: set<Key>)
    requires Reported(notices, m0, m1, done) && h !in done
    requires forall key :: key in newKeys <==> SubscribersIn(m0, h, key) == {} && SubscribersIn(m1, h, key) != {}
    requires forall key :: key in goneKeys <==> SubscribersIn(m0, h, key) != {} && SubscribersIn(m1, h, key) == {}
    ensures Reported(if newKeys != {} || goneKeys != {} then notices + [FedCall(h, newKeys, goneKeys)] else notices,
                     m0, m1, done + {h})
  {
    if newKeys != {} || goneKeys != {} {
      var call := FedCall(h, newKeys, goneKeys);
      DistinctStep(notices, done, call);
      KeysStep(notices, m0, m1, call);
      CoverStep(notices, m0, m1, done, h, call);
    } else {
      forall key ensures !Transition(m0, m1, h, key) {
        assert key !in newKeys && key !in goneKeys;
      }
    }
  }

  lemma DistinctStep(notices: seq<FedCall>, done: set<Host>, call: FedCall)
    requires NoticeHostsDistinct(notices) && NoticesWithin(notices, done) && call.host !in done
    requires call.keysToAdd != {} || call.keysToRemove != {}
    ensures NoticeHostsDistinct(notices + [call]) && NoticesWithin(notices + [call], done + {call.host})
  {
  }

  lemma KeysStep(notices: seq<FedCall>, m0: Mirrors, m1: Mirrors, call: FedCall)
    requires ReportedKeys(notices, m0, m1)
    requires forall key :: key in call.keysToAdd <==>
      SubscribersIn(m0, call.host, key) == {} && SubscribersIn(m1, call.host, key) != {}
    requires forall key :: key in call.keysToRemove <==>
      SubscribersIn(m0, call.host, key) != {} && SubscribersIn(m1, call.host, key) == {}
    ensures ReportedKeys(notices + [call], m0, m1)
  {
  }

  lemma CoverStep(notices: seq<FedCall>, m0: Mirrors, m1: Mirrors, done: set<Host>, h: Host, call: FedCall)
    requires TransitionsCovered(notices, m0, m1, done) && call.host == h
    ensures TransitionsCovered(notices + [call], m0, m1, done + {h})
  {
    var notices' := notices + [call];
    forall h', key | h' in done + {h} && Transition(m0, m1, h', key)
      ensures exists i :: 0 <= i < |notices'| && notices'[i].host == h'
    {
      if h' == h {
        assert notices'[|notices|].host == h;
      } else {
        var i :| 0 <= i < |notices| && notices[i].host == h';
        assert notices'[i].host == h';
      }
    }
  }

  /** One iteration of the host loop of `updateUserChangesSubscriptions`: read the host record,
      apply `x`'s delta for that host, write the record back when a position was added or
      removed, and queue its report when it has one. */
  method VisitHost(ghost hosts0: Hosts, hosts: Hosts, m0: Mirrors, x: UserId, s: Subs, prev: Subs,
                   todo: set<Host>, notices: seq<FedCall>, h: Host)
    returns (hosts': Hosts, notices': seq<FedCall>)
    requires HostLoop(hosts0, hosts, m0, x, s, todo, notices)
    requires prev == MirrorIn(m0, x) && h in todo
    ensures HostLoop(hosts0, hosts', m0, x, s, todo - {h}, notices')
  {
    var hr: HostRecord;
    match ReadHost(hosts, h) {
      case Ok(v) => hr := v;
    }
    var added := Tokens.KeysAt(Tokens.Pairs(s) - Tokens.Pairs(prev), h);
    var removed := Tokens.KeysAt(Tokens.Pairs(prev) - Tokens.Pairs(s), h);
    var r, newKeys, goneKeys, changed := ApplyHostDelta(hr, x, added, removed);
    assert DeltaApplied(hr, x, added, removed, r, newKeys, goneKeys, changed);
    HostVisit(hosts0, hosts, m0, x, s, todo, notices, h, r, newKeys, goneKeys, changed);
    HostLoopStep(hosts0, hosts, m0, x, s, todo, notices, h, r, newKeys, goneKeys);
    hosts', notices' := hosts, notices;
    if changed {
      hosts' := WriteHost(hosts, h, r);
    }
    if newKeys != {} || goneKeys != {} {
      notices' := notices + [FedCall(h, newKeys, goneKeys)];
    }
  }

  /** The host loop of `updateUserChangesSubscriptions`, for the mirrors `m0`, `x`'s current
      subscriptions `s` and its mirror `prev`: each host with an added or removed pair gets its
      record updated and, when some key there gained its first or lost its last observer, a
      report. The hosts are visited in no particular order. */
  method UpdateHosts(hosts: Hosts, m0: Mirrors, x: UserId, s: Subs, prev: Subs)
    returns (hosts': Hosts, notices: seq<FedCall>)
    requires HostsOk(hosts) && Indexed(hosts, m0) && prev == MirrorIn(m0, x)
    ensures Reconciled(hosts, hosts', m0, x, s, notices)
  {
    var added := Tokens.Pairs(s) - Tokens.Pairs(prev);
    var removed := Tokens.Pairs(prev) - Tokens.Pairs(s);
    hosts', notices := hosts, [];
    HostLoopInit(hosts, m0, x, s);
    if added != {} || removed != {} {
      var todo := Tokens.HostsIn(added) + Tokens.HostsIn(removed);
      while todo != {}
        invariant HostLoop(hosts, hosts', m0, x, s, todo, notices)
        decreases todo
      {
        var h :| h in todo;
        hosts', notices := VisitHost(hosts, hosts', m0, x, s, prev, todo, notices, h);
        todo := todo - {h};
      }
    }
    HostLoopEnd(hosts, hosts', m0, x, s, notices);
  }
}
