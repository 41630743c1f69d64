/** The subscription deltas of `updateUserChangesSubscriptions`: both subscription maps are
    flattened into tokens, the two set differences are taken, and the differences are split back
    into host and key. The source joins a token as `host:key` and splits it again at the FIRST
    colon; the model's reconciler works on (host, key) pairs instead, which is what that join and
    split are meant to compute. */
module Tokens {

  import opened Store
  import Text

  /** The subscription pairs of a map: `(h, k)` for every key `k` listed under host `h`. */
  function Pairs(s: Subs): (r: set<(Host, Key)>)
    ensures forall p :: p in r <==> p.0 in s && p.1 in s[p.0]
  {
    set h, k | h in s && k in s[h] :: (h, k)
  }

  /** The keys paired with `h` in a set of pairs. */
  function KeysAt(d: set<(Host, Key)>, h: Host): (r: set<Key>)
    ensures forall k :: k in r <==> (h, k) in d
  {
    set p | p in d && p.0 == h :: p.1
  }

  /** The hosts that occur in a set of pairs. */
  function HostsIn(d: set<(Host, Key)>): (r: set<Host>)
    ensures forall h :: h in r <==> exists k :: (h, k) in d
  {
    set p | p in d :: p.0
  }

  // ----- the string tokens as written -----

  /** The `$flattenKeys` closure: `host:key` for every listed key. Every pair has its token,
      every token holds a colon, and with colon-free hosts every token splits back into a pair. */
  function Flatten(s: Subs): (r: set<string>)
    ensures forall p :: p in Pairs(s) ==> p.0 + ":" + p.1 in r
    ensures forall t :: t in r ==> ':' in t
    ensures ColonFreeHosts(s) ==> forall t :: t in r ==> ':' in t && Split(t) in Pairs(s)
  {
    var r := set h, k | h in s && k in s[h] :: h + ":" + k;
    forall t | t in r ensures ':' in t && (ColonFreeHosts(s) ==> Split(t) in Pairs(s)) {
      var h, k :| h in s && k in s[h] && t == h + ":" + k;
      assert t[|h|] == ':';
      if ColonFreeHosts(s) { SplitJoin(h, k); }
    }
    r
  }

  /** One step of the `$unflattenKeys` closure: `explode(':', $token, 2)`. */
  function Split(t: string): (r: (Host, Key))
    requires ':' in t
    ensures ':' !in r.0 && t == r.0 + ":" + r.1
  {
    var i := Text.FirstIndexOf(t, ':').value;
    assert t == t[..i] + ":" + t[i + 1..];
    (t[..i], t[i + 1..])
  }

  /** The delta the source computes: `unflatten(array_diff(flatten(cur), flatten(prev)))`. */
  function AsWrittenDelta(cur: Subs, prev: Subs): (r: set<(Host, Key)>)
    ensures forall p :: p in r ==> ':' !in p.0 && p.0 + ":" + p.1 in Flatten(cur) - Flatten(prev)
  {
    set t | t in Flatten(cur) - Flatten(prev) && ':' in t :: Split(t)
  }

  /** Splitting at the first colon undoes the join when the host has no colon; the key may
      contain colons. */
  lemma {:induction false} SplitJoin(h: Host, k: Key)
    requires ':' !in h
    ensures ':' in h + ":" + k && Split(h + ":" + k) == (h, k)
  {
    var t := h + ":" + k;
    assert t[|h|] == ':';
    assert t[..|h|] == h;
  }

  predicate ColonFreeHosts(s: Subs)
  {
    forall h :: h in s ==> ':' !in h
  }

  /** With colon-free hosts the string tokens compute exactly the pair difference. */
  lemma {:induction false} AsWrittenAgrees(cur: Subs, prev: Subs)
    requires ColonFreeHosts(cur) && ColonFreeHosts(prev)
    ensures AsWrittenDelta(cur, prev) == Pairs(cur) - Pairs(prev)
  {
    forall p | p in Pairs(cur) - Pairs(prev) ensures p in AsWrittenDelta(cur, prev) {
      var t := p.0 + ":" + p.1;
      SplitJoin(p.0, p.1);
      assert t in Flatten(cur);
    }
    forall p | p in AsWrittenDelta(cur, prev) ensures p in Pairs(cur) - Pairs(prev) {
      var t :| t in Flatten(cur) - Flatten(prev) && ':' in t && p == Split(t);
      var h, k :| h in cur && k in cur[h] && t == h + ":" + k;
      SplitJoin(h, k);
    }
  }

  /** The tokens of a single subscription. */
  lemma FlattenOne(h: Host, k: Key)
    ensures Flatten(map[h := [k]]) == {h + ":" + k}
  {
    var s := map[h := [k]];
    assert (h, k) in Pairs(s);
    forall t | t in Flatten(s) ensures t == h + ":" + k {
      var h', k' :| h' in s && k' in s[h'] && t == h' + ":" + k';
    }
  }

  /** A host with a port, which `isHost` accepts, breaks the split: the user moves the key "k"
      of host example.com:8080 to the key "8080:k" of host example.com, both pairs flatten to the
      same token, and the source sees no change at all. */
  lemma AsWrittenMissesPortHost()
    ensures var cur := map["example.com" := ["8080:k"]];
            var prev := map["example.com:8080" := ["k"]];
            AsWrittenDelta(cur, prev) == {} && Pairs(cur) - Pairs(prev) == {("example.com", "8080:k")}
  {
    var cur := map["example.com" := ["8080:k"]];
    var prev := map["example.com:8080" := ["k"]];
    FlattenOne("example.com", "8080:k");
    FlattenOne("example.com:8080", "k");
    assert "example.com" + ":" + "8080:k" == "example.com:8080" + ":" + "k";
    assert Flatten(cur) - Flatten(prev) == {};
    assert ("example.com", "8080:k") in Pairs(cur);
    assert Pairs(prev) == {("example.com:8080", "k")};
    assert Pairs(cur) == {("example.com", "8080:k")};
  }
}
