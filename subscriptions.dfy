/** The editing loops of `modifyUserChangesSubscriptions`: removals, then additions, applied to a
    user's subscriptions `s`. The specification functions fold the argument arrays from the end,
    one entry and one key at a time, in the order the source's loops visit them. */
module Subscriptions {

  import opened Wrappers
  import opened Lists
  import opened Values
  import opened Store
  import Text
  import Tokens

  /** An argument array (`$keysToAdd` / `$keysToRemove`): host to array of keys. */
  type Edits = seq<(ArrayKey, Value)>

  /** The subscriptions being edited and the source's `$hasChange`. */
  datatype Edited = Edited(subs: Subs, changed: bool)

  /** How a host name is normalised before use: `trim(strtolower($host))`. */
  function Normalize(host: string): string
  {
    Text.Trim(Text.Lower(host))
  }

  /** A normalised host is a lowered stretch of the input (its ends are not trimmable, by
      `Text.Trim`). */
  lemma NormalizedFrom(host: string) returns (a: nat)
    ensures LoweredFrom(host, Normalize(host), a)
  {
    var low := Text.Lower(host);
    a := Text.TrimOffset(low);
    SliceLowered(host, low, Text.Trim(low), a);
  }

  /** A normalised host holds no ASCII capital. */
  lemma NormalizedNoCapital(host: string)
    ensures forall i :: 0 <= i < |Normalize(host)| ==> !('A' <= Normalize(host)[i] <= 'Z')
  {
    var a := NormalizedFrom(host);
    LoweredNoCapital(host, Normalize(host), a);
  }

  lemma SliceLowered(host: string, low: string, r: string, a: nat)
    requires |low| == |host| && forall j :: 0 <= j < |low| ==> low[j] == Text.LowerChar(host[j])
    requires a + |r| <= |low| && r == low[a..a + |r|]
    ensures LoweredFrom(host, r, a)
  {
    forall i | 0 <= i < |r| ensures r[i] == Text.LowerChar(host[a + i]) {
      assert r[i] == low[a + i];
    }
  }

  lemma LoweredNoCapital(host: string, r: string, a: nat)
    requires LoweredFrom(host, r, a)
    ensures forall i :: 0 <= i < |r| ==> !('A' <= r[i] <= 'Z')
  {
    forall i | 0 <= i < |r| ensures !('A' <= r[i] <= 'Z') {
      assert r[i] == Text.LowerChar(host[a + i]);
    }
  }

  /** `r` is the stretch of `host` from position `a`, lowered. */
  predicate LoweredFrom(host: string, r: string, a: int)
  {
    0 <= a && a + |r| <= |host| && forall i :: 0 <= i < |r| ==> r[i] == Text.LowerChar(host[a + i])
  }

  /** `'*' == $v` under PHP 8 loose comparison: the string "*" itself, or `true`. */
  predicate IsWildcard(v: Value)
  {
    v == Str("*") || v == Bool(true)
  }

  /** `array_search('*', $keysToRemove) !== false`. */
  predicate HasWildcard(rem: Edits)
  {
    exists i :: 0 <= i < |rem| && IsWildcard(rem[i].1)
  }

  /** Every host's key list has no duplicate. */
  ghost predicate ListsDupFree(s: Subs)
  {
    forall h :: h in s ==> DupFree(s[h])
  }

  /** No host has an empty key list. */
  ghost predicate NoEmptyLists(s: Subs)
  {
    forall h :: h in s ==> s[h] != []
  }

  /** A step that leaves `$hasChange` false changed nothing, and `$hasChange` is never reset. */
  ghost predicate Quiet(e: Edited, r: Edited)
  {
    (e.changed ==> r.changed) && (!r.changed ==> r == e)
  }

  /** Removing one key of host `h`: `array_search`, `unset`, then drop the host when its list
      is empty and `array_unique` it otherwise. A key not in the list, a non-string key, or a
      host already dropped by an earlier key changes nothing. */
  function RemoveKey(e: Edited, h: Host, key: Value): Edited
  {
    match key
    case Str(k) =>
      if h in e.subs then
        match Find(e.subs[h], k)
        case Some(i) =>
          var l := RemoveAt(e.subs[h], i);
          Edited(if l == [] then e.subs - {h} else e.subs[h := Dedup(l)], true)
        case None => e
      else e
    case _ => e
  }

  /** Adding one key to host `h`: create the list when the host is absent, append, then
      `array_unique`. Every string key sets `$hasChange`, even one already listed. */
  function AddKey(e: Edited, h: Host, key: Value): Edited
  {
    match key
    case Str(k) =>
      var l := if h in e.subs then e.subs[h] else [];
      Edited(e.subs[h := Dedup(l + [k])], true)
    case _ => e
  }

  /** The (host, key) pairs named by the string keys among `keys`. */
  function KeyPairs(h: Host, keys: seq<Value>): set<(Host, Key)>
  {
    if keys == [] then {}
    else
      var last := keys[|keys| - 1];
      KeyPairs(h, keys[..|keys| - 1]) + (if last.Str? then {(h, last.s)} else {})
  }

  /** The host an entry edits: a string host, normalised, that `isHost` accepts, with an array of
      keys. Other entries are skipped. */
  function EntryHost(entry: (ArrayKey, Value), isHost: Host -> bool): (r: Option<(Host, seq<Value>)>)
    ensures r.Some? <==> entry.0.StrKey? && entry.1.Array? && isHost(Normalize(entry.0.s))
    ensures r.Some? ==> r.value == (Normalize(entry.0.s), Items(entry.1.entries))
  {
    match entry
    case (StrKey(host), Array(items)) =>
      var h := Normalize(host);
      if isHost(h) then Some((h, Items(items))) else None
    case _ => None
  }

  /** The (host, key) pairs one entry names. */
  function EntryPairs(entry: (ArrayKey, Value), isHost: Host -> bool): set<(Host, Key)>
  {
    var target := EntryHost(entry, isHost);
    if target.Some? then KeyPairs(target.value.0, target.value.1) else {}
  }

  /** The (host, key) pairs an argument array names. */
  function Named(edits: Edits, isHost: Host -> bool): set<(Host, Key)>
  {
    if edits == [] then {}
    else Named(edits[..|edits| - 1], isHost) + EntryPairs(edits[|edits| - 1], isHost)
  }

  /** The inner removal loop over one host's keys. */
  function RemoveKeys(e: Edited, h: Host, keys: seq<Value>): Edited
  {
    if keys == [] then e
    else RemoveKey(RemoveKeys(e, h, keys[..|keys| - 1]), h, keys[|keys| - 1])
  }

  /** One entry of the removal loop: skipped unless its host is valid and subscribed. */
  function RemoveEntry(e: Edited, entry: (ArrayKey, Value), isHost: Host -> bool): Edited
  {
    var target := EntryHost(entry, isHost);
    if target.Some? && target.value.0 in e.subs then RemoveKeys(e, target.value.0, target.value.1)
    else e
  }

  /** The removal loop over `$keysToRemove`. */
  function RemoveAll(e: Edited, rem: Edits, isHost: Host -> bool): Edited
  {
    if rem == [] then e
    else RemoveEntry(RemoveAll(e, rem[..|rem| - 1], isHost), rem[|rem| - 1], isHost)
  }

  /** The inner addition loop over one host's keys. */
  function AddKeys(e: Edited, h: Host, keys: seq<Value>): Edited
  {
    if keys == [] then e
    else AddKey(AddKeys(e, h, keys[..|keys| - 1]), h, keys[|keys| - 1])
  }

  /** One entry of the addition loop: skipped unless its host is valid. */
  function AddEntry(e: Edited, entry: (ArrayKey, Value), isHost: Host -> bool): Edited
  {
    var target := EntryHost(entry, isHost);
    if target.Some? then AddKeys(e, target.value.0, target.value.1) else e
  }

  /** The addition loop over `$keysToAdd`. */
  function AddAll(e: Edited, add: Edits, isHost: Host -> bool): Edited
  {
    if add == [] then e
    else AddEntry(AddAll(e, add[..|add| - 1], isHost), add[|add| - 1], isHost)
  }

  /** The edit `modifyUserChangesSubscriptions` makes to `s`: a wildcard among the removal values
      clears everything (a change only when there was something to clear), otherwise the
      removals apply; then the additions. */
  function Edit(s: Subs, add: Edits, rem: Edits, isHost: Host -> bool): Edited
  {
    var cleared := if HasWildcard(rem) then Edited(map[], s != map[])
                   else RemoveAll(Edited(s, false), rem, isHost);
    AddAll(cleared, add, isHost)
  }

  /** The inner removal loop: remove each string key of `keys` from host `h`'s list. */
  method RemoveHostKeys(s: Subs, changed: bool, h: Host, keys: seq<Value>)
    returns (r: Subs, changed': bool)
    ensures Edited(r, changed') == RemoveKeys(Edited(s, changed), h, keys)
  {
    r, changed' := s, changed;
    var j := 0;
    while j < |keys|
      invariant 0 <= j <= |keys|
      invariant Edited(r, changed') == RemoveKeys(Edited(s, changed), h, keys[..j])
    {
      ghost var before := Edited(r, changed');
      match keys[j] {
        case Str(k) =>
          // once the host's list has emptied and been dropped, further keys find nothing
          if h in r {
            var found := Find(r[h], k);
            if found.Some? {
              var l := RemoveAt(r[h], found.value);
              if l == [] {
                r := r - {h};
              } else {
                r := r[h := Dedup(l)];
              }
              changed' := true;
            }
          }
        case _ =>
      }
      assert Edited(r, changed') == RemoveKey(before, h, keys[j]);
      assert keys[..j + 1][..j] == keys[..j];
      j := j + 1;
    }
    assert keys[..|keys|] == keys;
  }

  /** The inner addition loop: append each string key of `keys` to host `h`'s list. */
  method AddHostKeys(s: Subs, changed: bool, h: Host, keys: seq<Value>)
    returns (r: Subs, changed': bool)
    ensures Edited(r, changed') == AddKeys(Edited(s, changed), h, keys)
  {
    r, changed' := s, changed;
    var j := 0;
    while j < |keys|
      invariant 0 <= j <= |keys|
      invariant Edited(r, changed') == AddKeys(Edited(s, changed), h, keys[..j])
    {
      ghost var before := Edited(r, changed');
      match keys[j] {
        case Str(k) =>
          var l := if h in r then r[h] else [];
          r := r[h := Dedup(l + [k])];
          changed' := true;
        case _ =>
      }
      assert Edited(r, changed') == AddKey(before, h, keys[j]);
      assert keys[..j + 1][..j] == keys[..j];
      j := j + 1;
    }
    assert keys[..|keys|] == keys;
  }

  /** The removal loop over the entries of `$keysToRemove` (no wildcard among them). */
  method RemoveEntries(s: Subs, rem: Edits, isHost: Host -> bool) returns (r: Subs, changed: bool)
    ensures Edited(r, changed) == RemoveAll(Edited(s, false), rem, isHost)
  {
    r, changed := s, false;
    var i := 0;
    while i < |rem|
      invariant 0 <= i <= |rem|
      invariant Edited(r, changed) == RemoveAll(Edited(s, false), rem[..i], isHost)
    {
      ghost var before := Edited(r, changed);
      var target := EntryHost(rem[i], isHost);
      if target.Some? && target.value.0 in r {
        r, changed := RemoveHostKeys(r, changed, target.value.0, target.value.1);
      }
      assert Edited(r, changed) == RemoveEntry(before, rem[i], isHost);
      RemoveAllStep(Edited(s, false), rem, i, isHost);
      i := i + 1;
    }
    assert rem[..|rem|] == rem;
  }

  /** The addition loop over the entries of `$keysToAdd`. */
  method AddEntries(s: Subs, changed: bool, add: Edits, isHost: Host -> bool)
    returns (r: Subs, changed': bool)
    ensures Edited(r, changed') == AddAll(Edited(s, changed), add, isHost)
  {
    r, changed' := s, changed;
    var i := 0;
    while i < |add|
      invariant 0 <= i <= |add|
      invariant Edited(r, changed') == AddAll(Edited(s, changed), add[..i], isHost)
    {
      ghost var before := Edited(r, changed');
      var target := EntryHost(add[i], isHost);
      if target.Some? {
        r, changed' := AddHostKeys(r, changed', target.value.0, target.value.1);
      }
      assert Edited(r, changed') == AddEntry(before, add[i], isHost);
      AddAllStep(Edited(s, changed), add, i, isHost);
      i := i + 1;
    }
    assert add[..|add|] == add;
  }

  lemma RemoveAllStep(e: Edited, rem: Edits, i: nat, isHost: Host -> bool)
    requires i < |rem|
    ensures RemoveAll(e, rem[..i + 1], isHost) == RemoveEntry(RemoveAll(e, rem[..i], isHost), rem[i], isHost)
  {
    assert rem[..i + 1][..i] == rem[..i];
  }

  lemma AddAllStep(e: Edited, add: Edits, i: nat, isHost: Host -> bool)
    requires i < |add|
    ensures AddAll(e, add[..i + 1], isHost) == AddEntry(AddAll(e, add[..i], isHost), add[i], isHost)
  {
    assert add[..i + 1][..i] == add[..i];
  }

  /** The editing part of `modifyUserChangesSubscriptions`: the wildcard test, the removals,
      then the additions, updating the subscriptions and `$hasChange`. */
  method EditSubscriptions(s: Subs, add: Edits, rem: Edits, isHost: Host -> bool)
    returns (r: Subs, changed: bool)
    ensures Edited(r, changed) == Edit(s, add, rem, isHost)
  {
    if HasWildcard(rem) {
      r, changed := map[], s != map[];
    } else {
      r, changed := RemoveEntries(s, rem, isHost);
    }
    r, changed := AddEntries(r, changed, add, isHost);
  }

  // ----- what the edit does -----

  /** Both list invariants, when `e` has them, survive the step to `r`. */
  ghost predicate KeepsLists(e: Edited, r: Edited)
  {
    (NoEmptyLists(e.subs) ==> NoEmptyLists(r.subs)) && (ListsDupFree(e.subs) ==> ListsDupFree(r.subs))
  }

  /** With duplicate-free lists, the step removes exactly the pairs `named`, and sets
      `$hasChange` exactly when one of them was subscribed. */
  ghost predicate RemovesPairs(e: Edited, r: Edited, named: set<(Host, Key)>)
  {
    ListsDupFree(e.subs) ==>
      Tokens.Pairs(r.subs) == Tokens.Pairs(e.subs) - named &&
      r.changed == (e.changed || Tokens.Pairs(e.subs) * named != {})
  }

  /** The step adds exactly the pairs `named`, and sets `$hasChange` exactly when there is one. */
  ghost predicate AddsPairs(e: Edited, r: Edited, named: set<(Host, Key)>)
  {
    Tokens.Pairs(r.subs) == Tokens.Pairs(e.subs) + named && r.changed == (e.changed || named != {})
  }

  lemma RemoveKeyFacts(e: Edited, h: Host, key: Value)
    ensures var r := RemoveKey(e, h, key);
      Quiet(e, r) && KeepsLists(e, r) &&
      RemovesPairs(e, r, if key.Str? then {(h, key.s)} else {})
  {
    if key.Str? && h in e.subs {
      var k := key.s;
      assert (h, k) in Tokens.Pairs(e.subs) <==> k in e.subs[h];
      match Find(e.subs[h], k) {
        case Some(i) =>
          var l := RemoveAt(e.subs[h], i);
          var r := Edited(if l == [] then e.subs - {h} else e.subs[h := Dedup(l)], true);
          assert RemoveKey(e, h, key) == r;
          assert e.subs[h][i] == k;
          assert (h, k) in Tokens.Pairs(e.subs) * {(h, k)};
          if ListsDupFree(e.subs) {
            RemoveAtDupFree(e.subs[h], i);
            if l != [] { DedupOfDupFree(l); }
            assert Tokens.Pairs(r.subs) == Tokens.Pairs(e.subs) - {(h, k)};
          }
          assert KeepsLists(e, r);
        case None =>
          assert RemoveKey(e, h, key) == e;
          assert Tokens.Pairs(e.subs) * {(h, k)} == {};
      }
    }
  }

  lemma AddKeyFacts(e: Edited, h: Host, key: Value)
    ensures var r := AddKey(e, h, key);
      Quiet(e, r) && KeepsLists(e, r) && AddsPairs(e, r, if key.Str? then {(h, key.s)} else {})
  {
    if key.Str? {
      var l := if h in e.subs then e.subs[h] else [];
      var r := Edited(e.subs[h := Dedup(l + [key.s])], true);
      assert AddKey(e, h, key) == r;
      assert Tokens.Pairs(r.subs) == Tokens.Pairs(e.subs) + {(h, key.s)};
      assert KeepsLists(e, r);
    }
  }

  /** Every pair in `KeyPairs(h, keys)` has host `h`. */
  lemma {:induction false} KeyPairsHost(h: Host, keys: seq<Value>)
    ensures forall p :: p in KeyPairs(h, keys) ==> p.0 == h
  {
    if keys != [] { KeyPairsHost(h, keys[..|keys| - 1]); }
  }

  /** Keys named for a host the user does not subscribe to meet none of the user's pairs. */
  lemma UnsubscribedHost(s: Subs, h: Host, keys: seq<Value>)
    requires h !in s
    ensures Tokens.Pairs(s) * KeyPairs(h, keys) == {}
    ensures Tokens.Pairs(s) - KeyPairs(h, keys) == Tokens.Pairs(s)
  {
    KeyPairsHost(h, keys);
    var ps := Tokens.Pairs(s);
    assert forall p :: p in KeyPairs(h, keys) ==> p !in ps;
  }

  lemma QuietCompose(e: Edited, m: Edited, r: Edited)
    requires Quiet(e, m) && Quiet(m, r)
    ensures Quiet(e, r)
  {
  }

  lemma KeepsCompose(e: Edited, m: Edited, r: Edited)
    requires KeepsLists(e, m) && KeepsLists(m, r)
    ensures KeepsLists(e, r)
  {
  }

  lemma RemovesCompose(e: Edited, m: Edited, r: Edited, a: set<(Host, Key)>, b: set<(Host, Key)>)
    requires KeepsLists(e, m) && RemovesPairs(e, m, a) && RemovesPairs(m, r, b)
    ensures RemovesPairs(e, r, a + b)
  {
    if ListsDupFree(e.subs) {
      var pe := Tokens.Pairs(e.subs);
      assert Tokens.Pairs(r.subs) == pe - (a + b);
      if (pe - a) * b != {} {
        var p :| p in (pe - a) * b;
        assert p in pe * (a + b);
      }
      if pe * (a + b) != {} && pe * a == {} {
        var p :| p in pe * (a + b);
        assert p !in pe * a;
        assert p in (pe - a) * b;
      }
    }
  }

  lemma AddsCompose(e: Edited, m: Edited, r: Edited, a: set<(Host, Key)>, b: set<(Host, Key)>)
    requires AddsPairs(e, m, a) && AddsPairs(m, r, b)
    ensures AddsPairs(e, r, a + b)
  {
  }

  lemma {:induction false} RemoveKeysFacts(e: Edited, h: Host, keys: seq<Value>)
    ensures var r := RemoveKeys(e, h, keys);
      Quiet(e, r) && KeepsLists(e, r) && RemovesPairs(e, r, KeyPairs(h, keys))
  {
    if keys != [] {
      var init, last := keys[..|keys| - 1], keys[|keys| - 1];
      var m := RemoveKeys(e, h, init);
      var r := RemoveKey(m, h, last);
      RemoveKeysFacts(e, h, init);
      RemoveKeyFacts(m, h, last);
      QuietCompose(e, m, r);
      KeepsCompose(e, m, r);
      RemovesCompose(e, m, r, KeyPairs(h, init), if last.Str? then {(h, last.s)} else {});
    }
  }

  lemma RemoveEntryFacts(e: Edited, entry: (ArrayKey, Value), isHost: Host -> bool)
    ensures var r := RemoveEntry(e, entry, isHost);
      Quiet(e, r) && KeepsLists(e, r) && RemovesPairs(e, r, EntryPairs(entry, isHost))
  {
    var target := EntryHost(entry, isHost);
    if target.Some? {
      if target.value.0 in e.subs {
        RemoveKeysFacts(e, target.value.0, target.value.1);
      } else {
        UnsubscribedHost(e.subs, target.value.0, target.value.1);
      }
    }
  }

  lemma {:induction false} RemoveAllFacts(e: Edited, rem: Edits, isHost: Host -> bool)
    ensures var r := RemoveAll(e, rem, isHost);
      Quiet(e, r) && KeepsLists(e, r) && RemovesPairs(e, r, Named(rem, isHost))
  {
    if rem != [] {
      var init, last := rem[..|rem| - 1], rem[|rem| - 1];
      var m := RemoveAll(e, init, isHost);
      var r := RemoveEntry(m, last, isHost);
      RemoveAllFacts(e, init, isHost);
      RemoveEntryFacts(m, last, isHost);
      QuietCompose(e, m, r);
      KeepsCompose(e, m, r);
      RemovesCompose(e, m, r, Named(init, isHost), EntryPairs(last, isHost));
    }
  }

  lemma {:induction false} AddKeysFacts(e: Edited, h: Host, keys: seq<Value>)
    ensures var r := AddKeys(e, h, keys);
      Quiet(e, r) && KeepsLists(e, r) && AddsPairs(e, r, KeyPairs(h, keys))
  {
    if keys != [] {
      var init, last := keys[..|keys| - 1], keys[|keys| - 1];
      var m := AddKeys(e, h, init);
      var r := AddKey(m, h, last);
      AddKeysFacts(e, h, init);
      AddKeyFacts(m, h, last);
      QuietCompose(e, m, r);
      KeepsCompose(e, m, r);
      AddsCompose(e, m, r, KeyPairs(h, init), if last.Str? then {(h, last.s)} else {});
    }
  }

  lemma AddEntryFacts(e: Edited, entry: (ArrayKey, Value), isHost: Host -> bool)
    ensures var r := AddEntry(e, entry, isHost);
      Quiet(e, r) && KeepsLists(e, r) && AddsPairs(e, r, EntryPairs(entry, isHost))
  {
    var target := EntryHost(entry, isHost);
    if target.Some? {
      AddKeysFacts(e, target.value.0, target.value.1);
    }
  }

  lemma {:induction false} AddAllFacts(e: Edited, add: Edits, isHost: Host -> bool)
    ensures var r := AddAll(e, add, isHost);
      Quiet(e, r) && KeepsLists(e, r) && AddsPairs(e, r, Named(add, isHost))
  {
    if add != [] {
      var init, last := add[..|add| - 1], add[|add| - 1];
      var m := AddAll(e, init, isHost);
      var r := AddEntry(m, last, isHost);
      AddAllFacts(e, init, isHost);
      AddEntryFacts(m, last, isHost);
      QuietCompose(e, m, r);
      KeepsCompose(e, m, r);
      AddsCompose(e, m, r, Named(init, isHost), EntryPairs(last, isHost));
    }
  }

  /** When `$hasChange` stays false, the user's subscriptions are exactly as they were (so the
      source neither writes nor reconciles). */
  lemma EditQuiet(s: Subs, add: Edits, rem: Edits, isHost: Host -> bool)
    ensures !Edit(s, add, rem, isHost).changed ==> Edit(s, add, rem, isHost).subs == s
  {
    var cleared := if HasWildcard(rem) then Edited(map[], s != map[])
                   else RemoveAll(Edited(s, false), rem, isHost);
    if !HasWildcard(rem) { RemoveAllFacts(Edited(s, false), rem, isHost); }
    AddAllFacts(cleared, add, isHost);
  }

  /** Each host's key list stays duplicate-free, and a host whose list empties is dropped. */
  lemma EditKeepsLists(s: Subs, add: Edits, rem: Edits, isHost: Host -> bool)
    requires ListsDupFree(s) && NoEmptyLists(s)
    ensures ListsDupFree(Edit(s, add, rem, isHost).subs)
    ensures NoEmptyLists(Edit(s, add, rem, isHost).subs)
  {
    var cleared := if HasWildcard(rem) then Edited(map[], s != map[])
                   else RemoveAll(Edited(s, false), rem, isHost);
    if !HasWildcard(rem) { RemoveAllFacts(Edited(s, false), rem, isHost); }
    AddAllFacts(cleared, add, isHost);
  }

  /** The subscribed pairs afterwards: the pairs added, together with (unless a wildcard cleared
      everything) the pairs subscribed before and not removed. `$hasChange` is set exactly when
      a valid string key was added, or a subscribed pair was removed, or a wildcard cleared a
      non-empty map. */
  lemma EditPairs(s: Subs, add: Edits, rem: Edits, isHost: Host -> bool)
    requires ListsDupFree(s)
    ensures Tokens.Pairs(Edit(s, add, rem, isHost).subs) ==
      Named(add, isHost) + (if HasWildcard(rem) then {} else Tokens.Pairs(s) - Named(rem, isHost))
    ensures Edit(s, add, rem, isHost).changed <==>
      Named(add, isHost) != {} ||
      (if HasWildcard(rem) then s != map[] else Tokens.Pairs(s) * Named(rem, isHost) != {})
  {
    var cleared := if HasWildcard(rem) then Edited(map[], s != map[])
                   else RemoveAll(Edited(s, false), rem, isHost);
    if !HasWildcard(rem) { RemoveAllFacts(Edited(s, false), rem, isHost); }
    assert Tokens.Pairs(map[]) == {};
    AddAllFacts(cleared, add, isHost);
  }

  /** A key that `addUser` stored twice survives one removal: `array_search` finds the first
      copy, the list keeps the second, and `hasChange` is set. */
  lemma DuplicateSurvivesRemoval(h: Host, k: Key, isHost: Host -> bool)
    requires Normalize(h) == h && isHost(h)
    ensures var rem := [(StrKey(h), Array([(IntKey(0), Str(k))]))];
      Edit(map[h := [k, k]], [], rem, isHost) == Edited(map[h := [k]], true)
  {
    var s := map[h := [k, k]];
    var rem := [(StrKey(h), Array([(IntKey(0), Str(k))]))];
    assert !HasWildcard(rem) by {
      assert !IsWildcard(rem[0].1);
    }
    assert rem[..0] == [];
    RemoveDuplicateOnce(h, k, isHost);
    assert RemoveAll(Edited(s, false), rem, isHost) == RemoveEntry(Edited(s, false), rem[0], isHost);
  }

  lemma RemoveDuplicateOnce(h: Host, k: Key, isHost: Host -> bool)
    requires Normalize(h) == h && isHost(h)
    ensures RemoveEntry(Edited(map[h := [k, k]], false), (StrKey(h), Array([(IntKey(0), Str(k))])), isHost) ==
      Edited(map[h := [k]], true)
  {
    var e := Edited(map[h := [k, k]], false);
    var keys := Items([(IntKey(0), Str(k))]);
    assert EntryHost((StrKey(h), Array([(IntKey(0), Str(k))])), isHost) == Some((h, keys));
    assert keys == [Str(k)];
    assert keys[..0] == [];
    assert RemoveKeys(e, h, keys) == RemoveKey(e, h, Str(k));
    assert RemoveKey(e, h, Str(k)) == Edited(map[h := [k]], true) by {
      assert Find([k, k], k) == Some(0);
      assert RemoveAt([k, k], 0) == [k];
      DedupOfDupFree([k]);
      assert e.subs[h := [k]] == map[h := [k]];
    }
  }
}
