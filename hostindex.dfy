/** The host observer index: one host record's `u` (user dictionary) and `k` (key to observer
    positions), the per-host step of the reconciler and the notification fan-out. */
module HostIndex {

  import opened Wrappers
  import opened Lists
  import opened Store
  import opened Values

  /** The users at the positions `ps`; a position outside `u` names nobody (the `isset` guard). */
  ghost function At(u: seq<UserId>, ps: seq<nat>): set<UserId>
  {
    set p | p in ps && p < |u| :: u[p]
  }

  /** The observers of `key` on this host. */
  ghost function Observers(hr: HostRecord, key: Key): set<UserId>
  {
    if key in hr.keys then At(hr.users, hr.keys[key]) else {}
  }

  ghost predicate PositionsOk(ps: seq<nat>, n: nat)
  {
    ps != [] && DupFree(ps) && forall i :: 0 <= i < |ps| ==> ps[i] < n
  }

  /** What a stored host record keeps: `u` has no duplicates, and every key in `k` has a
      non-empty, duplicate-free list of valid positions. */
  ghost predicate WellFormed(hr: HostRecord)
  {
    DupFree(hr.users) &&
    forall key :: key in hr.keys ==> PositionsOk(hr.keys[key], |hr.users|)
  }

  lemma AtAppend(u: seq<UserId>, ps: seq<nat>, p: nat)
    ensures At(u, ps + [p]) == At(u, ps) + (if p < |u| then {u[p]} else {})
  {
    assert forall q :: q in ps + [p] <==> q in ps || q == p;
  }

  /** Extending `u` does not change what positions inside the old `u` name. */
  lemma AtExtendUsers(u: seq<UserId>, ps: seq<nat>, x: UserId)
    requires forall i :: 0 <= i < |ps| ==> ps[i] < |u|
    ensures At(u + [x], ps) == At(u, ps)
  {
    forall y ensures y in At(u + [x], ps) <==> y in At(u, ps) {
      if y in At(u + [x], ps) {
        var p :| p in ps && p < |u| + 1 && (u + [x])[p] == y;
        assert p < |u|;
      }
      if y in At(u, ps) {
        var p :| p in ps && p < |u| && u[p] == y;
        assert (u + [x])[p] == y;
      }
    }
  }

  /** With `u` duplicate-free, a user is named by a list exactly when its position is in it. */
  lemma AtMember(u: seq<UserId>, ps: seq<nat>, px: nat)
    requires DupFree(u) && px < |u|
    ensures u[px] in At(u, ps) <==> px in ps
  {
    if u[px] in At(u, ps) {
      var p :| p in ps && p < |u| && u[p] == u[px];
    }
  }

  /** Valid positions name somebody, so a list names nobody only when it is empty. */
  lemma AtEmpty(u: seq<UserId>, ps: seq<nat>)
    requires forall i :: 0 <= i < |ps| ==> ps[i] < |u|
    ensures At(u, ps) == {} <==> ps == []
  {
    if ps != [] {
      assert u[ps[0]] in At(u, ps);
    }
  }

  /** Removing the one occurrence of a position removes exactly that user. */
  lemma AtRemove(u: seq<UserId>, ps: seq<nat>, i: nat)
    requires DupFree(u) && DupFree(ps) && i < |ps|
    requires forall j :: 0 <= j < |ps| ==> ps[j] < |u|
    ensures At(u, RemoveAt(ps, i)) == At(u, ps) - {u[ps[i]]}
  {
    RemoveAtDupFree(ps, i);
    var rest := RemoveAt(ps, i);
    forall y ensures y in At(u, rest) <==> y in At(u, ps) - {u[ps[i]]} {
      if y in At(u, rest) {
        var p :| p in rest && p < |u| && u[p] == y;
        assert p != ps[i];
      }
      if y in At(u, ps) - {u[ps[i]]} {
        var p :| p in ps && p < |u| && u[p] == y;
        assert p in rest;
      }
    }
  }

  /** The observers of `key` once the user `x` has been added for the keys in `added` and
      removed for the keys in `removed`. */
  ghost function AfterDelta(hr: HostRecord, x: UserId, added: set<Key>, removed: set<Key>, key: Key)
    : set<UserId>
  {
    if key in added then Observers(hr, key) + {x}
    else if key in removed then Observers(hr, key) - {x}
    else Observers(hr, key)
  }

  /** The per-host step of `updateUserChangesSubscriptions`: give `x` a position in `u` (appended
      only when absent), add that position to the list of each added key (creating the key, and
      reporting it as newly observed, when it is absent), remove it from the list of each removed
      key (deleting the key, and reporting it as no longer observed, when its list empties).
      `changed` is the source's `hasChange`: a position was added or removed. */
  method ApplyHostDelta(hr: HostRecord, x: UserId, added: set<Key>, removed: set<Key>)
    returns (r: HostRecord, newKeys: set<Key>, goneKeys: set<Key>, changed: bool)
    requires WellFormed(hr)
    requires added !! removed
    ensures WellFormed(r)
    ensures r.users == if x in hr.users then hr.users else hr.users + [x]
    ensures forall key :: Observers(r, key) == AfterDelta(hr, x, added, removed, key)
    ensures newKeys == added - hr.keys.Keys
    ensures goneKeys == set key | key in removed && key in hr.keys && Observers(hr, key) <= {x}
    ensures r.keys.Keys == (hr.keys.Keys + added) - goneKeys
    ensures changed <==>
      ((exists key :: key in added && x !in Observers(hr, key)) ||
       (exists key :: key in removed && x in Observers(hr, key)))
  {
    var u := hr.users;
    var px: nat;
    match Find(u, x) {
      case Some(i) =>
        px := i;
      case None =>
        u := u + [x];
        px := |u| - 1;
        forall key | key in hr.keys ensures At(u, hr.keys[key]) == At(hr.users, hr.keys[key]) {
          AtExtendUsers(hr.users, hr.keys[key], x);
        }
    }
    var start := HostRecord(u, hr.keys);
    assert WellFormed(start);
    assert forall key :: Observers(start, key) == Observers(hr, key);
    var keys, added1 := AddPositions(start, px, added);
    var mid := HostRecord(u, keys);
    var keys2, removed1;
    keys2, goneKeys, removed1 := RemovePositions(mid, px, removed);
    r := HostRecord(u, keys2);
    newKeys := added - hr.keys.Keys;
    changed := added1 || removed1;
  }

  /** In a well-formed record a key is present in `k` exactly when somebody observes it. */
  lemma ObservedKeys(hr: HostRecord)
    requires WellFormed(hr)
    ensures forall key :: key in hr.keys <==> Observers(hr, key) != {}
  {
    forall key | key in hr.keys ensures Observers(hr, key) != {} {
      AtEmpty(hr.users, hr.keys[key]);
    }
  }

  lemma WellFormedUpdate(hr: HostRecord, key: Key, ps: seq<nat>)
    requires WellFormed(hr) && PositionsOk(ps, |hr.users|)
    ensures WellFormed(HostRecord(hr.users, hr.keys[key := ps]))
  {
  }

  lemma WellFormedDelete(hr: HostRecord, key: Key)
    requires WellFormed(hr)
    ensures WellFormed(HostRecord(hr.users, hr.keys - {key}))
  {
  }

  /** The users at each key of `cur` are those of `hr`, plus `x` for the keys in `done`. */
  ghost predicate AddedFor(hr: HostRecord, cur: HostRecord, x: UserId, done: set<Key>)
  {
    forall key :: Observers(cur, key) == (if key in done then Observers(hr, key) + {x} else Observers(hr, key))
  }

  /** The users at each key of `cur` are those of `hr`, less `x` for the keys in `done`. */
  ghost predicate RemovedFor(hr: HostRecord, cur: HostRecord, x: UserId, done: set<Key>)
  {
    forall key :: Observers(cur, key) == (if key in done then Observers(hr, key) - {x} else Observers(hr, key))
  }

  /** One step of the first loop keeps the loop's relation. */
  lemma AddStep(hr: HostRecord, cur: HostRecord, px: nat, done: set<Key>, key: Key, ps: seq<nat>)
    requires WellFormed(cur) && px < |cur.users| && cur.users == hr.users
    requires AddedFor(hr, cur, cur.users[px], done) && key !in done
    requires ps == (if key in cur.keys then cur.keys[key] else [])
    ensures var ps' := if px in ps then ps else ps + [px];
      WellFormed(HostRecord(cur.users, cur.keys[key := ps'])) &&
      AddedFor(hr, HostRecord(cur.users, cur.keys[key := ps']), cur.users[px], done + {key})
    ensures cur.users[px] in Observers(hr, key) <==> px in ps
  {
    var u, x := cur.users, cur.users[px];
    AtMember(u, ps, px);
    var ps' := if px in ps then ps else ps + [px];
    if px !in ps {
      AtAppend(u, ps, px);
      assert PositionsOk(ps', |u|) by {
        assert forall i :: 0 <= i < |ps| ==> ps'[i] == ps[i];
      }
    }
    WellFormedUpdate(cur, key, ps');
    var next := HostRecord(u, cur.keys[key := ps']);
    forall k ensures Observers(next, k) == (if k in done + {key} then Observers(hr, k) + {x} else Observers(hr, k)) {
      if k != key {
        assert Observers(next, k) == Observers(cur, k);
      }
    }
  }

  /** One step of the second loop keeps the loop's relation. */
  lemma RemoveStep(hr: HostRecord, cur: HostRecord, px: nat, done: set<Key>, key: Key, ps': seq<nat>)
    requires WellFormed(cur) && px < |cur.users| && cur.users == hr.users
    requires RemovedFor(hr, cur, cur.users[px], done) && key !in done && key in cur.keys
    requires ps' == WithoutPosition(cur.keys[key], px)
    ensures var next := if ps' == [] then HostRecord(cur.users, cur.keys - {key})
                        else HostRecord(cur.users, cur.keys[key := ps']);
      WellFormed(next) && RemovedFor(hr, next, cur.users[px], done + {key})
    ensures ps' == [] <==> Observers(hr, key) <= {cur.users[px]}
    ensures cur.users[px] in Observers(hr, key) <==> px in cur.keys[key]
  {
    var u, x, ps := cur.users, cur.users[px], cur.keys[key];
    AtMember(u, ps, px);
    match Find(ps, px) {
      case Some(i) =>
        AtRemove(u, ps, i);
        RemoveAtDupFree(ps, i);
      case None =>
    }
    AtEmpty(u, ps');
    var next := if ps' == [] then HostRecord(u, cur.keys - {key}) else HostRecord(u, cur.keys[key := ps']);
    if ps' == [] {
      WellFormedDelete(cur, key);
    } else {
      assert PositionsOk(ps', |u|);
      WellFormedUpdate(cur, key, ps');
    }
    forall k ensures Observers(next, k) == (if k in done + {key} then Observers(hr, k) - {x} else Observers(hr, k)) {
      if k != key {
        assert Observers(next, k) == Observers(cur, k);
      }
    }
  }

  /** The state of the first loop once the keys outside `todo` are done. */
  ghost predicate AddLoop(hr: HostRecord, keys: map<Key, seq<nat>>, px: nat, added: set<Key>,
                          todo: set<Key>, changed: bool)
    requires px < |hr.users|
  {
    && todo <= added
    && WellFormed(HostRecord(hr.users, keys))
    && AddedFor(hr, HostRecord(hr.users, keys), hr.users[px], added - todo)
    && keys.Keys == hr.keys.Keys + (added - todo)
    && UnobservedExactly(hr, hr.users[px], added - todo, changed)
  }

  /** `changed` holds when `x` did not yet observe one of the keys of `done`. */
  ghost predicate UnobservedExactly(hr: HostRecord, x: UserId, done: set<Key>, changed: bool)
  {
    changed <==> exists k :: k in done && x !in Observers(hr, k)
  }

  lemma AddLoopStep(hr: HostRecord, keys: map<Key, seq<nat>>, px: nat, added: set<Key>,
                    todo: set<Key>, changed: bool, key: Key)
    requires px < |hr.users| && AddLoop(hr, keys, px, added, todo, changed) && key in todo
    ensures var ps := if key in keys then keys[key] else [];
      AddLoop(hr, keys[key := if px in ps then ps else ps + [px]], px, added, todo - {key},
              changed || px !in ps)
  {
    var ps := if key in keys then keys[key] else [];
    AddStep(hr, HostRecord(hr.users, keys), px, added - todo, key, ps);
    assert added - (todo - {key}) == (added - todo) + {key};
  }

  /** The first loop of the per-host step: for each added key, create its list when absent and
      append the position `px` unless it is already listed. */
  method AddPositions(hr: HostRecord, px: nat, added: set<Key>)
    returns (keys: map<Key, seq<nat>>, changed: bool)
    requires WellFormed(hr) && px < |hr.users|
    ensures WellFormed(HostRecord(hr.users, keys))
    ensures AddedFor(hr, HostRecord(hr.users, keys), hr.users[px], added)
    ensures keys.Keys == hr.keys.Keys + added
    ensures UnobservedExactly(hr, hr.users[px], added, changed)
  {
    keys := hr.keys;
    var todo := added;
    changed := false;
    while todo != {}
      invariant AddLoop(hr, keys, px, added, todo, changed)
      decreases todo
    {
      var key :| key in todo;
      var ps := if key in keys then keys[key] else [];
      AddLoopStep(hr, keys, px, added, todo, changed, key);
      if Find(ps, px).None? {
        keys := keys[key := ps + [px]];
        changed := true;
      } else {
        keys := keys[key := ps];
      }
      todo := todo - {key};
    }
  }

  /** `gone` holds the keys of `done` whose only observer was `x`. */
  ghost predicate GoneExactly(hr: HostRecord, x: UserId, done: set<Key>, gone: set<Key>)
  {
    gone == (set k | k in done && k in hr.keys && Observers(hr, k) <= {x})
  }

  /** `changed` holds when `x` observed one of the keys of `done`. */
  ghost predicate ChangedExactly(hr: HostRecord, x: UserId, done: set<Key>, changed: bool)
  {
    changed <==> exists k :: k in done && x in Observers(hr, k)
  }

  ghost predicate Untouched(hr: HostRecord, keys: map<Key, seq<nat>>, todo: set<Key>)
  {
    forall key :: key in todo && key in hr.keys ==> key in keys && keys[key] == hr.keys[key]
  }

  /** The state of the second loop once the keys outside `todo` are done. */
  ghost predicate RemoveLoop(hr: HostRecord, keys: map<Key, seq<nat>>, px: nat, removed: set<Key>,
                             todo: set<Key>, goneKeys: set<Key>, changed: bool)
    requires px < |hr.users|
  {
    && todo <= removed
    && WellFormed(HostRecord(hr.users, keys))
    && RemovedFor(hr, HostRecord(hr.users, keys), hr.users[px], removed - todo)
    && Untouched(hr, keys, todo)
    && keys.Keys == hr.keys.Keys - goneKeys
    && GoneExactly(hr, hr.users[px], removed - todo, goneKeys)
    && ChangedExactly(hr, hr.users[px], removed - todo, changed)
  }

  /** `keys[key]` with the first occurrence of `px` dropped (`array_search`, `unset`,
      `array_values`): one `px` fewer, nothing else changed; in a duplicate-free list, exactly
      `px` is gone. */
  function WithoutPosition(ps: seq<nat>, px: nat): (r: seq<nat>)
    ensures px !in ps ==> r == ps
    ensures px in ps ==> |r| == |ps| - 1 && multiset(r) == multiset(ps) - multiset{px}
    ensures DupFree(ps) ==> DupFree(r) && forall q :: q in r <==> q in ps && q != px
  {
    match Find(ps, px)
    case Some(i) =>
      assert ps == ps[..i] + [ps[i]] + ps[i + 1..];
      assert DupFree(ps) ==> DupFree(RemoveAt(ps, i)) && forall q :: q in RemoveAt(ps, i) <==> q in ps && q != px by {
        if DupFree(ps) { RemoveAtDupFree(ps, i); }
      }
      RemoveAt(ps, i)
    case None => ps
  }

  lemma RemoveLoopStep(hr: HostRecord, keys: map<Key, seq<nat>>, px: nat, removed: set<Key>,
                       todo: set<Key>, goneKeys: set<Key>, changed: bool, key: Key)
    requires px < |hr.users| && RemoveLoop(hr, keys, px, removed, todo, goneKeys, changed) && key in todo
    ensures key !in keys ==> RemoveLoop(hr, keys, px, removed, todo - {key}, goneKeys, changed)
    ensures key in keys ==>
      var ps' := WithoutPosition(keys[key], px);
      RemoveLoop(hr, if ps' == [] then keys - {key} else keys[key := ps'], px, removed, todo - {key},
                 if ps' == [] then goneKeys + {key} else goneKeys, changed || px in keys[key])
  {
    if key in keys {
      RemoveLoopStepPresent(hr, keys, px, removed, todo, goneKeys, changed, key);
    } else {
      RemoveLoopStepAbsent(hr, keys, px, removed, todo, goneKeys, changed, key);
    }
  }

  lemma RemoveLoopStepAbsent(hr: HostRecord, keys: map<Key, seq<nat>>, px: nat, removed: set<Key>,
                             todo: set<Key>, goneKeys: set<Key>, changed: bool, key: Key)
    requires px < |hr.users| && RemoveLoop(hr, keys, px, removed, todo, goneKeys, changed)
    requires key in todo && key !in keys
    ensures RemoveLoop(hr, keys, px, removed, todo - {key}, goneKeys, changed)
  {
    var x := hr.users[px];
    var done := removed - todo;
    assert removed - (todo - {key}) == done + {key};
    assert key !in hr.keys;
    var cur := HostRecord(hr.users, keys);
    forall k ensures Observers(cur, k) == (if k in done + {key} then Observers(hr, k) - {x} else Observers(hr, k)) {
      assert k == key ==> Observers(cur, k) == {} == Observers(hr, k);
    }
  }

  lemma RemoveLoopStepPresent(hr: HostRecord, keys: map<Key, seq<nat>>, px: nat, removed: set<Key>,
                              todo: set<Key>, goneKeys: set<Key>, changed: bool, key: Key)
    requires px < |hr.users| && RemoveLoop(hr, keys, px, removed, todo, goneKeys, changed)
    requires key in todo && key in keys
    ensures var ps' := WithoutPosition(keys[key], px);
      RemoveLoop(hr, if ps' == [] then keys - {key} else keys[key := ps'], px, removed, todo - {key},
                 if ps' == [] then goneKeys + {key} else goneKeys, changed || px in keys[key])
  {
    var x := hr.users[px];
    var ps' := WithoutPosition(keys[key], px);
    var keys' := if ps' == [] then keys - {key} else keys[key := ps'];
    var gone' := if ps' == [] then goneKeys + {key} else goneKeys;
    RemovePresentFacts(hr, keys, px, removed, todo, goneKeys, changed, key);
    GoneStep(hr, x, removed, todo, goneKeys, key, ps' == []);
    ChangedStep(hr, x, removed, todo, changed, key, px in keys[key]);
  }

  lemma RemovePresentFacts(hr: HostRecord, keys: map<Key, seq<nat>>, px: nat, removed: set<Key>,
                           todo: set<Key>, goneKeys: set<Key>, changed: bool, key: Key)
    requires px < |hr.users| && RemoveLoop(hr, keys, px, removed, todo, goneKeys, changed)
    requires key in todo && key in keys
    ensures var ps' := WithoutPosition(keys[key], px);
      var keys' := if ps' == [] then keys - {key} else keys[key := ps'];
      var gone' := if ps' == [] then goneKeys + {key} else goneKeys;
      && WellFormed(HostRecord(hr.users, keys'))
      && RemovedFor(hr, HostRecord(hr.users, keys'), hr.users[px], removed - (todo - {key}))
      && Untouched(hr, keys', todo - {key})
      && keys'.Keys == hr.keys.Keys - gone'
      && (ps' == [] <==> key in hr.keys && Observers(hr, key) <= {hr.users[px]})
      && (px in keys[key] <==> hr.users[px] in Observers(hr, key))
  {
    var done := removed - todo;
    var ps' := WithoutPosition(keys[key], px);
    assert removed - (todo - {key}) == done + {key};
    RemoveStep(hr, HostRecord(hr.users, keys), px, done, key, ps');
    assert key in hr.keys && keys[key] == hr.keys[key];
  }

  lemma GoneStep(hr: HostRecord, x: UserId, removed: set<Key>, todo: set<Key>, goneKeys: set<Key>,
                 key: Key, gone: bool)
    requires GoneExactly(hr, x, removed - todo, goneKeys)
    requires key in todo && todo <= removed
    requires gone <==> key in hr.keys && Observers(hr, key) <= {x}
    ensures GoneExactly(hr, x, removed - (todo - {key}), if gone then goneKeys + {key} else goneKeys)
  {
    assert removed - (todo - {key}) == (removed - todo) + {key};
  }

  lemma ChangedStep(hr: HostRecord, x: UserId, removed: set<Key>, todo: set<Key>, changed: bool,
                    key: Key, hit: bool)
    requires ChangedExactly(hr, x, removed - todo, changed)
    requires key in todo && todo <= removed
    requires hit <==> x in Observers(hr, key)
    ensures ChangedExactly(hr, x, removed - (todo - {key}), changed || hit)
  {
    assert removed - (todo - {key}) == (removed - todo) + {key};
  }

  /** The second loop of the per-host step: for each removed key that is present, drop the
      position `px` from its list, and delete the key (reporting it gone) when the list is empty. */
  method RemovePositions(hr: HostRecord, px: nat, removed: set<Key>)
    returns (keys: map<Key, seq<nat>>, goneKeys: set<Key>, changed: bool)
    requires WellFormed(hr) && px < |hr.users|
    ensures WellFormed(HostRecord(hr.users, keys))
    ensures RemovedFor(hr, HostRecord(hr.users, keys), hr.users[px], removed)
    ensures GoneExactly(hr, hr.users[px], removed, goneKeys)
    ensures keys.Keys == hr.keys.Keys - goneKeys
    ensures ChangedExactly(hr, hr.users[px], removed, changed)
  {
    keys := hr.keys;
    var todo := removed;
    goneKeys, changed := {}, false;
    while todo != {}
      invariant RemoveLoop(hr, keys, px, removed, todo, goneKeys, changed)
      decreases todo
    {
      var key :| key in todo;
      RemoveLoopStep(hr, keys, px, removed, todo, goneKeys, changed, key);
      if key in keys {
        var ps := keys[key];
        match Find(ps, px) {
          case Some(i) =>
            ps := RemoveAt(ps, i);
            changed := true;
          case None =>
        }
        if ps == [] {
          goneKeys := goneKeys + {key};
          keys := keys - {key};
        } else {
          keys := keys[key := ps];
        }
      }
      todo := todo - {key};
    }
  }

  /** The users reached through the string keys among `keys`. */
  ghost function ReachedBy(hr: HostRecord, keys: seq<Value>): set<UserId>
  {
    if keys == [] then {}
    else
      ReachedBy(hr, keys[..|keys| - 1]) +
      match keys[|keys| - 1] case Str(key) => Observers(hr, key) case _ => {}
  }

  /** A user is reached exactly when it observes one of the string keys. */
  lemma {:induction false} ReachedByKeys(hr: HostRecord, keys: seq<Value>, y: UserId)
    ensures y in ReachedBy(hr, keys) <==>
      exists i :: 0 <= i < |keys| && keys[i].Str? && y in Observers(hr, keys[i].s)
  {
    if keys != [] {
      var init := keys[..|keys| - 1];
      ReachedByKeys(hr, init, y);
      if y in ReachedBy(hr, init) {
        var i :| 0 <= i < |init| && init[i].Str? && y in Observers(hr, init[i].s);
        assert keys[i] == init[i];
      }
      if exists i :: 0 <= i < |keys| && keys[i].Str? && y in Observers(hr, keys[i].s) {
        var i :| 0 <= i < |keys| && keys[i].Str? && y in Observers(hr, keys[i].s);
        if i < |init| { assert init[i] == keys[i]; }
      }
    }
  }

  /** The users at the positions of `ps` that exist in `u`, in the order of `ps`. */
  function Listed(u: seq<UserId>, ps: seq<nat>): seq<UserId>
  {
    if ps == [] then []
    else Listed(u, ps[..|ps| - 1]) + (if ps[|ps| - 1] < |u| then [u[ps[|ps| - 1]]] else [])
  }

  /** Every user reached through the string keys among `keys`, key by key and position by
      position, repeats included. */
  function Trail(hr: HostRecord, keys: seq<Value>): seq<UserId>
  {
    if keys == [] then []
    else
      Trail(hr, keys[..|keys| - 1]) + KeyTrail(hr, keys[|keys| - 1])
  }

  /** The users one argument key reaches: none unless it is a string key present in `k`. */
  function KeyTrail(hr: HostRecord, v: Value): seq<UserId>
  {
    match v
    case Str(key) => if key in hr.keys then Listed(hr.users, hr.keys[key]) else []
    case _ => []
  }

  lemma TrailStep(hr: HostRecord, keys: seq<Value>, i: nat)
    requires i < |keys|
    ensures Trail(hr, keys[..i + 1]) == Trail(hr, keys[..i]) + KeyTrail(hr, keys[i])
  {
    assert keys[..i + 1][..i] == keys[..i];
  }

  lemma ListedStep(u: seq<UserId>, ps: seq<nat>, j: nat)
    requires j < |ps|
    ensures Listed(u, ps[..j + 1]) == Listed(u, ps[..j]) + (if ps[j] < |u| then [u[ps[j]]] else [])
  {
    assert ps[..j + 1][..j] == ps[..j];
  }

  lemma {:induction false} ListedAt(u: seq<UserId>, ps: seq<nat>, y: UserId)
    ensures y in Listed(u, ps) <==> y in At(u, ps)
  {
    if ps != [] {
      var init := ps[..|ps| - 1];
      ListedAt(u, init, y);
      assert ps == init + [ps[|ps| - 1]];
      AtAppend(u, init, ps[|ps| - 1]);
    }
  }

  /** The trail passes exactly the users `ReachedBy` collects. */
  lemma {:induction false} TrailReached(hr: HostRecord, keys: seq<Value>, y: UserId)
    ensures y in Trail(hr, keys) <==> y in ReachedBy(hr, keys)
  {
    if keys != [] {
      TrailReached(hr, keys[..|keys| - 1], y);
      match keys[|keys| - 1] {
        case Str(key) =>
          if key in hr.keys { ListedAt(hr.users, hr.keys[key], y); }
        case _ =>
      }
    }
  }

  /** Appending one user to a sequence keeps it when it is new. */
  lemma DedupSnoc(s: seq<UserId>, y: UserId)
    ensures Dedup(s + [y]) == if y in Dedup(s) then Dedup(s) else Dedup(s) + [y]
  {
    assert (s + [y])[..|s|] == s;
  }

  /** One position more: its user is appended unless it is already collected or the position
      is outside `u`. */
  lemma CollectStep(u: seq<UserId>, ps: seq<nat>, base: seq<UserId>, j: nat)
    requires j < |ps|
    ensures var d := Dedup(base + Listed(u, ps[..j]));
      Dedup(base + Listed(u, ps[..j + 1])) == if ps[j] < |u| && u[ps[j]] !in d then d + [u[ps[j]]] else d
  {
    ListedStep(u, ps, j);
    var pre := base + Listed(u, ps[..j]);
    if ps[j] < |u| {
      var y := u[ps[j]];
      DedupSnoc(pre, y);
      assert base + (Listed(u, ps[..j]) + [y]) == pre + [y];
    } else {
      assert base + Listed(u, ps[..j + 1]) == pre;
    }
  }

  /** The inner loop of the fan-out: add the users at the positions `ps`, each once, after
      those already collected from the trail prefix `base`. */
  method CollectListed(u: seq<UserId>, ps: seq<nat>, ghost base: seq<UserId>, users0: seq<UserId>)
    returns (users: seq<UserId>)
    requires users0 == Dedup(base)
    ensures users == Dedup(base + Listed(u, ps))
  {
    users := users0;
    var j := 0;
    assert base + Listed(u, ps[..0]) == base;
    while j < |ps|
      invariant 0 <= j <= |ps|
      invariant users == Dedup(base + Listed(u, ps[..j]))
    {
      CollectStep(u, ps, base, j);
      if ps[j] < |u| && u[ps[j]] !in users {
        users := users + [u[ps[j]]];
      }
      j := j + 1;
    }
    assert ps[..|ps|] == ps;
  }

  /** The collecting loop of `notifyHostObservers`: walk the string keys present in `k`, map each
      listed position that exists in `u` to its user, and keep each user once, in the order first
      reached (the trail with repeats dropped; `Lists.DedupInFirstOrder` gives that order).
      Non-string keys, absent keys and positions outside `u` are skipped. */
  method FanOut(hr: HostRecord, keys: seq<Value>) returns (users: seq<UserId>)
    ensures users == Dedup(Trail(hr, keys))
    ensures DupFree(users)
    ensures forall y :: y in users <==> y in ReachedBy(hr, keys)
  {
    users := [];
    var i := 0;
    while i < |keys|
      invariant 0 <= i <= |keys|
      invariant users == Dedup(Trail(hr, keys[..i]))
    {
      TrailStep(hr, keys, i);
      ghost var base := Trail(hr, keys[..i]);
      match keys[i] {
        case Str(key) =>
          if key in hr.keys {
            users := CollectListed(hr.users, hr.keys[key], base, users);
          } else {
            assert Trail(hr, keys[..i + 1]) == base;
          }
        case _ =>
          assert Trail(hr, keys[..i + 1]) == base;
      }
      i := i + 1;
    }
    assert keys[..|keys|] == keys;
    forall y ensures y in users <==> y in ReachedBy(hr, keys) {
      TrailReached(hr, keys, y);
    }
  }
}
