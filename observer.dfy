/** The observer's state and the operations of `Utilities` that read and write it: the three kinds
    of stored record, the push-notification queue, and a log of the federation requests sent. */
module Observer {

  import opened Wrappers
  import opened Lists
  import opened Values
  import opened Store
  import opened HostIndex
  import opened Reconciler
  import Tokens
  import Subscriptions
  import Envelope

  /** One queued push notification: the user and its payload (`null` for a plain wake-up). */
  datatype Pending = Pending(user: UserId, payload: Option<string>)

  /** A user's subscriptions `s`: empty for a missing user or a missing `s`. */
  ghost function SubsIn(users: Users, x: UserId): Subs
  {
    if x in users then users[x].value.subs else map[]
  }

  type Users = map<UserId, Stored<UserRecord>>

  /** Every user record is tagged `w` and carries its own id. */
  ghost predicate UsersOkIn(users: Users)
  {
    forall x :: x in users ==> users[x].tag == UserTag && users[x].value.id == x
  }

  ghost predicate MirrorsOkIn(mirrors: Mirrors)
  {
    forall y :: y in mirrors ==> mirrors[y].tag == MirrorTag && mirrors[y].value != map[]
  }

  /** Every mirror other than `x`'s is the subscriptions of its user as they now are. */
  ghost predicate MirroredBut(users: Users, mirrors: Mirrors, x: UserId)
  {
    forall y :: y != x ==> MirrorIn(mirrors, y) == SubsIn(users, y)
  }

  /** Every mirror is the subscriptions of its user as they now are. */
  ghost predicate MirroredIn(users: Users, mirrors: Mirrors)
  {
    forall y :: MirrorIn(mirrors, y) == SubsIn(users, y)
  }

  /** Writing `x`'s current subscriptions as its mirror makes every mirror current. */
  lemma MirrorWritten(users: Users, mirrors: Mirrors, x: UserId)
    requires MirrorsOkIn(mirrors) && MirroredBut(users, mirrors, x)
    ensures MirrorsOkIn(WriteMirror(mirrors, x, SubsIn(users, x)))
    ensures MirroredIn(users, WriteMirror(mirrors, x, SubsIn(users, x)))
  {
    var m1 := WriteMirror(mirrors, x, SubsIn(users, x));
    forall y ensures MirrorIn(m1, y) == SubsIn(users, y) {
      MirrorInAfter(mirrors, x, SubsIn(users, x), y);
    }
  }

  /** The record-level invariants of the three stores and the index invariant (`Indexed`). */
  ghost predicate StoreOk(users: Users, mirrors: Mirrors, hosts: Hosts)
  {
    UsersOkIn(users) && MirrorsOkIn(mirrors) && HostsOk(hosts) && Indexed(hosts, mirrors)
  }

  /** After the host loop, storing `x`'s subscriptions as its mirror restores every invariant;
      with the mirror already current the mirror store is as it was. */
  lemma ReconcileOutcome(users: Users, mirrors: Mirrors, hosts: Hosts, x: UserId, hosts': Hosts,
                         notices: seq<FedCall>)
    requires StoreOk(users, mirrors, hosts) && MirroredBut(users, mirrors, x)
    requires Reconciled(hosts, hosts', mirrors, x, SubsIn(users, x), notices)
    ensures StoreOk(users, WriteMirror(mirrors, x, SubsIn(users, x)), hosts')
    ensures MirroredIn(users, WriteMirror(mirrors, x, SubsIn(users, x)))
    ensures MirrorIn(mirrors, x) == SubsIn(users, x) ==> WriteMirror(mirrors, x, SubsIn(users, x)) == mirrors
  {
    MirrorWritten(users, mirrors, x);
    if MirrorIn(mirrors, x) == SubsIn(users, x) {
      NothingToReconcile(hosts, mirrors, x);
    }
  }

  /** `updateUserChangesSubscriptions` on the stores: read `x`'s subscriptions and mirror, run
      the host loop, then store the subscriptions as the new mirror. */
  method ReconcileStores(users: Users, mirrors: Mirrors, hosts: Hosts, x: UserId)
    returns (mirrors': Mirrors, hosts': Hosts, notices: seq<FedCall>)
    requires StoreOk(users, mirrors, hosts) && MirroredBut(users, mirrors, x)
    ensures StoreOk(users, mirrors', hosts') && MirroredIn(users, mirrors')
    ensures mirrors' == WriteMirror(mirrors, x, SubsIn(users, x))
    ensures Reconciled(hosts, hosts', mirrors, x, SubsIn(users, x), notices)
    ensures MirrorIn(mirrors, x) == SubsIn(users, x) ==>
      mirrors' == mirrors && hosts' == hosts && notices == []
  {
    var s: Subs;
    match ReadUser(users, x) {
      case Ok(None) => s := map[];
      case Ok(Some(rec)) => s := rec.subs;
    }
    var prev: Subs;
    match ReadMirror(mirrors, x) {
      case Ok(m) => prev := m;
    }
    hosts', notices := UpdateHosts(hosts, mirrors, x, s, prev);
    ReconcileOutcome(users, mirrors, hosts, x, hosts', notices);
    mirrors' := WriteMirror(mirrors, x, s);
  }

  /** Writing `rec` as `x`'s record keeps the user invariant, leaves every other mirror current,
      and leaves `x`'s current too when its subscriptions are those it had. */
  lemma UserWritten(users: Users, mirrors: Mirrors, x: UserId, rec: UserRecord)
    requires UsersOkIn(users) && MirroredBut(users, mirrors, x) && rec.id == x
    ensures UsersOkIn(WriteUser(users, x, rec))
    ensures MirroredBut(WriteUser(users, x, rec), mirrors, x)
    ensures MirroredIn(users, mirrors) && rec.subs == SubsIn(users, x) ==>
      MirroredIn(WriteUser(users, x, rec), mirrors)
  {
  }

  /** Deleting `x`'s records before writing new ones changes nothing in the end. */
  lemma Replaced(users: Users, mirrors: Mirrors, x: UserId, rec: UserRecord)
    ensures WriteUser(users - {x}, x, rec) == WriteUser(users, x, rec)
    ensures WriteMirror(mirrors - {x}, x, rec.subs) == WriteMirror(mirrors, x, rec.subs)
  {
    assert WriteUser(users - {x}, x, rec) == WriteUser(users, x, rec);
  }

  /** Dropping a user whose subscriptions are empty keeps every mirror current. */
  lemma UserDropped(users: Users, mirrors: Mirrors, x: UserId)
    requires UsersOkIn(users) && MirroredIn(users, mirrors) && SubsIn(users, x) == map[]
    ensures UsersOkIn(users - {x}) && MirroredIn(users - {x}, mirrors)
  {
    forall y ensures MirrorIn(mirrors, y) == SubsIn(users - {x}, y) {
      assert MirrorIn(mirrors, y) == SubsIn(users, y);
    }
  }

  /** `getUserPushSubscriptions`' result: `p`, or nothing for a missing user. */
  ghost function PushOf(users: Users, x: UserId): map<string, string>
  {
    if x in users then users[x].value.push else map[]
  }

  /** `getUserPushSubscriptions`: the user's `p`, the empty map for a missing user, and the
      exception of `getUserData` for a record under another tag. */
  function PushSubscriptions(users: Users, x: UserId): (r: Result<map<string, string>>)
    ensures r.Ok? <==> x !in users || users[x].tag == UserTag
    ensures r.Ok? ==> r.value == PushOf(users, x)
  {
    match ReadUser(users, x)
    case Ok(None) => Ok(map[])
    case Ok(Some(rec)) => Ok(rec.push)
    case Err(e) => Err(e)
  }

  /** The user records other than `x`'s are as they were. */
  ghost predicate OthersKept(u0: Users, u1: Users, x: UserId)
  {
    forall z :: z != x ==> (z in u1 <==> z in u0) && (z in u1 ==> u1[z] == u0[z])
  }

  /** `x`'s record, if still there, differs from the one before at most in `p`. */
  ghost predicate OnlyPushChanged(u0: Users, u1: Users, x: UserId)
  {
    x in u1 ==> x in u0 && u1[x] == Stored(UserTag, u0[x].value.(push := PushOf(u1, x)))
  }

  /** What `deleteUserPushSubscription` does to the user store: the session is gone from `x`'s
      `p`, and the user is gone exactly when that emptied a non-empty `p`. */
  ghost predicate PushDeleted(u0: Users, u1: Users, x: UserId, session: string)
  {
    OthersKept(u0, u1, x) && OnlyPushChanged(u0, u1, x) &&
    PushOf(u1, x) == PushOf(u0, x) - {session} &&
    (x in u1 <==> x in u0 && (PushOf(u1, x) != map[] || session !in PushOf(u0, x)))
  }

  /** What deleting one of `x`'s push subscriptions does to the mirrors, the host records and
      the log: nothing while `x` stays, or when there was no `x`; when it removes `x`, exactly the
      reconciliation of `deleteUser`: the mirror goes, the hosts are reconciled for an empty
      subscription map and the log grows by that report. */
  ghost predicate Cascaded(u0: Users, m0: Mirrors, h0: Hosts, l0: seq<FedCall>,
                           u1: Users, m1: Mirrors, h1: Hosts, l1: seq<FedCall>, x: UserId)
  {
    l0 <= l1 &&
    (x in u1 || x !in u0 ==> m1 == m0 && h1 == h0 && l1 == l0) &&
    (x in u0 && x !in u1 ==> m1 == m0 - {x} && Reconciled(h0, h1, m0, x, map[], l1[|l0|..]))
  }

  /** Two deletions for the same user, where the user never comes back, together do at most one
      `deleteUser`. */
  lemma CascadeStep(u0: Users, m0: Mirrors, h0: Hosts, l0: seq<FedCall>,
                    u1: Users, m1: Mirrors, h1: Hosts, l1: seq<FedCall>,
                    u2: Users, m2: Mirrors, h2: Hosts, l2: seq<FedCall>, x: UserId)
    requires Cascaded(u0, m0, h0, l0, u1, m1, h1, l1, x)
    requires Cascaded(u1, m1, h1, l1, u2, m2, h2, l2, x)
    requires x in u1 ==> x in u0
    requires x in u2 ==> x in u1
    ensures Cascaded(u0, m0, h0, l0, u2, m2, h2, l2, x)
  {
  }

  /** The flush so far: the log only grows, and while no user has been deleted the mirrors, the
      host records and the log are as they were. */
  ghost predicate NoneDeleted(u0: Users, m0: Mirrors, h0: Hosts, l0: seq<FedCall>,
                            u1: Users, m1: Mirrors, h1: Hosts, l1: seq<FedCall>)
  {
    l0 <= l1 && (u0.Keys <= u1.Keys ==> m1 == m0 && h1 == h0 && l1 == l0)
  }

  /** One more queued notification keeps `NoneDeleted`: its user either survives its sends, or was
      already gone, or its deletion is the first. */
  lemma NoneDeletedStep(u0: Users, m0: Mirrors, h0: Hosts, l0: seq<FedCall>,
                      u1: Users, m1: Mirrors, h1: Hosts, l1: seq<FedCall>,
                      u2: Users, m2: Mirrors, h2: Hosts, l2: seq<FedCall>, y: UserId)
    requires NoneDeleted(u0, m0, h0, l0, u1, m1, h1, l1)
    requires Cascaded(u1, m1, h1, l1, u2, m2, h2, l2, y)
    requires u1.Keys <= u0.Keys
    requires OthersKept(u1, u2, y) && (y in u2 ==> y in u1)
    ensures NoneDeleted(u0, m0, h0, l0, u2, m2, h2, l2)
  {
    if u0.Keys <= u2.Keys {
      assert u0.Keys <= u1.Keys;
      assert y in u2 || y !in u1;
    }
  }

  /** The outcome of one WebPush send: `Skipped` when the stored subscription data is not a
      subscription array and two key strings; otherwise success and whether the push service
      reported the subscription expired. */
  datatype Delivery = Skipped | Sent(success: bool, expired: bool)

  /** The sender: the unpacked subscription data and the payload, to the outcome. */
  type Sender = (string, Option<string>) -> Delivery

  const PushTag := "q"

  /** The payload sent: `pack('', payload)`, or nothing for a plain wake-up. */
  function Outgoing(payload: Option<string>): (r: Option<string>)
    ensures r.None? <==> payload.None?
    ensures payload.Some? ==> Envelope.Unpack(r.value) == Envelope.Unpacked(Some(""), Some(payload.value))
  {
    match payload
    case None => None
    case Some(p) =>
      Envelope.UnpackPack("", p);
      Some(Envelope.Pack("", p))
  }

  /** Sending `payload` through the stored subscription `blob` reports it expired: the blob is a
      `q` envelope and the send of its data says so. */
  predicate Expires(blob: string, payload: Option<string>, send: Sender)
  {
    var u := Envelope.Unpack(blob);
    u.name == Some(PushTag) && var d := send(u.value.value, Outgoing(payload)); d.Sent? && d.expired
  }

  /** The sessions of `p` that survive one send of `payload`. */
  function Kept(p: map<string, string>, payload: Option<string>, send: Sender): map<string, string>
  {
    map s | s in p && !Expires(p[s], payload, send) :: p[s]
  }

  /** `y`'s push subscriptions `p` after the sends of the queued notifications `items`. */
  function Pruned(p: map<string, string>, y: UserId, items: seq<Pending>, send: Sender): map<string, string>
  {
    if items == [] then p
    else
      var r := Pruned(p, y, items[..|items| - 1], send);
      if items[|items| - 1].user == y then Kept(r, items[|items| - 1].payload, send) else r
  }

  /** A session survives the queue exactly when no notification queued for its user reports it
      expired; a surviving session keeps its blob. */
  lemma {:induction false} PrunedExactly(p: map<string, string>, y: UserId, items: seq<Pending>, send: Sender, s: string)
    ensures s in Pruned(p, y, items, send) <==>
      s in p && !exists j :: 0 <= j < |items| && items[j].user == y && Expires(p[s], items[j].payload, send)
    ensures s in Pruned(p, y, items, send) ==> Pruned(p, y, items, send)[s] == p[s]
  {
    if items != [] {
      var init := items[..|items| - 1];
      PrunedExactly(p, y, init, send, s);
      if s in p {
        var last := |items| - 1;
        if exists j :: 0 <= j < |init| && init[j].user == y && Expires(p[s], init[j].payload, send) {
          var j :| 0 <= j < |init| && init[j].user == y && Expires(p[s], init[j].payload, send);
          assert items[j] == init[j];
        }
        if exists j :: 0 <= j < |items| && items[j].user == y && Expires(p[s], items[j].payload, send) {
          var j :| 0 <= j < |items| && items[j].user == y && Expires(p[s], items[j].payload, send);
          if j < last { assert init[j] == items[j]; }
        }
      }
    }
  }

  /** What one queued notification for `y` does to the user store. */
  ghost predicate ItemDelivered(u0: Users, u1: Users, y: UserId, payload: Option<string>, send: Sender)
  {
    OthersKept(u0, u1, y) && OnlyPushChanged(u0, u1, y) &&
    PushOf(u1, y) == Kept(PushOf(u0, y), payload, send) &&
    (y in u1 <==> y in u0 && (PushOf(u1, y) != map[] || PushOf(u0, y) == map[]))
  }

  /** What the queued notifications `items` do to the user store: every user keeps exactly its
      surviving sessions and everything else in its record, and a user goes when it had sessions
      and none survived. */
  ghost predicate Delivered(u0: Users, u1: Users, items: seq<Pending>, send: Sender)
  {
    forall y ::
      PushOf(u1, y) == Pruned(PushOf(u0, y), y, items, send) &&
      (y in u1 <==> y in u0 && (PushOf(u1, y) != map[] || PushOf(u0, y) == map[])) &&
      (y in u1 ==> u1[y] == Stored(UserTag, u0[y].value.(push := PushOf(u1, y))))
  }

  lemma DeliveredNone(users: Users, send: Sender)
    requires UsersOkIn(users)
    ensures Delivered(users, users, [], send)
  {
  }

  lemma DeliveredStep(u0: Users, u1: Users, u2: Users, items: seq<Pending>, item: Pending, send: Sender)
    requires Delivered(u0, u1, items, send)
    requires ItemDelivered(u1, u2, item.user, item.payload, send)
    ensures Delivered(u0, u2, items + [item], send)
  {
    var all := items + [item];
    assert all[..|all| - 1] == items;
    forall y
      ensures PushOf(u2, y) == Pruned(PushOf(u0, y), y, all, send)
      ensures y in u2 <==> y in u0 && (PushOf(u2, y) != map[] || PushOf(u0, y) == map[])
      ensures y in u2 ==> u2[y] == Stored(UserTag, u0[y].value.(push := PushOf(u2, y)))
    {
      if y == item.user {
        assert PushOf(u2, y).Keys <= PushOf(u1, y).Keys;
        forall s | s in PushOf(u1, y) ensures s in PushOf(u0, y) {
          PrunedExactly(PushOf(u0, y), y, items, send, s);
        }
      }
    }
  }

  /** The session loop for one queued notification: the sessions still in `todo` are untouched,
      the others survive unless the send reported them expired. */
  ghost predicate Sending(u0: Users, u1: Users, y: UserId, payload: Option<string>, send: Sender, todo: set<string>)
  {
    var p := PushOf(u0, y);
    OthersKept(u0, u1, y) && OnlyPushChanged(u0, u1, y) &&
    PushOf(u1, y) == (map s | s in p && (s in todo || !Expires(p[s], payload, send)) :: p[s]) &&
    (y in u1 <==> y in u0 && (PushOf(u1, y) != map[] || p == map[]))
  }

  lemma SendingInit(users: Users, y: UserId, payload: Option<string>, send: Sender)
    requires UsersOkIn(users)
    ensures Sending(users, users, y, payload, send, PushOf(users, y).Keys)
  {
  }

  lemma SendingStep(u0: Users, u1: Users, u2: Users, y: UserId, payload: Option<string>, send: Sender,
                    todo: set<string>, session: string)
    requires Sending(u0, u1, y, payload, send, todo)
    requires todo <= PushOf(u0, y).Keys && session in todo
    requires Expires(PushOf(u0, y)[session], payload, send) ==> PushDeleted(u1, u2, y, session)
    requires !Expires(PushOf(u0, y)[session], payload, send) ==> u2 == u1
    ensures Sending(u0, u2, y, payload, send, todo - {session})
  {
    var p := PushOf(u0, y);
    assert session in PushOf(u1, y);
  }

  lemma SendingEnd(u0: Users, u1: Users, y: UserId, payload: Option<string>, send: Sender)
    requires Sending(u0, u1, y, payload, send, {})
    ensures ItemDelivered(u0, u1, y, payload, send)
  {
  }

  /** The plain wake-ups queued for `targets`, in order. */
  function Wakeups(targets: seq<UserId>): (r: seq<Pending>)
    ensures |r| == |targets|
    ensures forall i :: 0 <= i < |targets| ==> r[i] == Pending(targets[i], None)
  {
    if targets == [] then [] else Wakeups(targets[..|targets| - 1]) + [Pending(targets[|targets| - 1], None)]
  }

  /** `y` is subscribed on host `h` to one of the string keys among `keys`. */
  ghost predicate Subscribed(users: Users, y: UserId, h: Host, keys: seq<Value>)
  {
    exists k :: 0 <= k < |keys| && keys[k].Str? && h in SubsIn(users, y) && keys[k].s in SubsIn(users, y)[h]
  }

  /** The notifications `items` are plain wake-ups, one per user, for exactly the users
      subscribed on `h` to one of `keys`. */
  ghost predicate Woken(items: seq<Pending>, users: Users, h: Host, keys: seq<Value>)
  {
    (forall i :: 0 <= i < |items| ==> items[i].payload == None) &&
    (forall i, j :: 0 <= i < j < |items| ==> items[i].user != items[j].user) &&
    (forall y :: (exists i :: 0 <= i < |items| && items[i].user == y) <==> Subscribed(users, y, h, keys))
  }

  /** Through the index, the users the fan-out reaches are exactly the subscribed ones. */
  lemma WokenExactly(users: Users, mirrors: Mirrors, hosts: Hosts, h: Host, keys: seq<Value>, targets: seq<UserId>)
    requires Indexed(hosts, mirrors) && MirroredIn(users, mirrors)
    requires DupFree(targets) && forall y :: y in targets <==> y in ReachedBy(HostIn(hosts, h), keys)
    ensures Woken(Wakeups(targets), users, h, keys)
  {
    var items := Wakeups(targets);
    forall y ensures (exists i :: 0 <= i < |items| && items[i].user == y) <==> Subscribed(users, y, h, keys) {
      ReachedByKeys(HostIn(hosts, h), keys, y);
      assert MirrorIn(mirrors, y) == SubsIn(users, y);
      if exists i :: 0 <= i < |items| && items[i].user == y {
        var i :| 0 <= i < |items| && items[i].user == y;
        assert targets[i] == y;
      }
      if y in targets {
        var i :| 0 <= i < |targets| && targets[i] == y;
        assert items[i].user == y;
      }
    }
  }

  class Observer {
    /** `isHost`: whether a host name is a valid URL host; left uninterpreted. */
    const isHost: Host -> bool

    var users: Users
    var mirrors: Mirrors
    var hosts: Hosts
    /** `$queuedPushNotifications`. */
    var queue: seq<Pending>
    /** Every `host.changes.subscription` request made, in order; their failures are swallowed. */
    ghost var log: seq<FedCall>

    /** The record-level invariants and the index invariant. */
    ghost predicate Base()
      reads this`users, this`mirrors, this`hosts
    {
      StoreOk(users, mirrors, hosts)
    }

    ghost function SubsOf(x: UserId): Subs
      reads this`users
    {
      SubsIn(users, x)
    }

    ghost predicate Mirrored()
      reads this`users, this`mirrors
    {
      MirroredIn(users, mirrors)
    }

    ghost predicate Valid()
      reads this`users, this`mirrors, this`hosts
    {
      Base() && Mirrored()
    }

    constructor(isHost: Host -> bool)
      ensures Valid()
      ensures this.isHost == isHost
      ensures users == map[] && mirrors == map[] && hosts == map[] && queue == [] && log == []
    {
      this.isHost := isHost;
      users, mirrors, hosts, queue := map[], map[], map[], [];
      log := [];
    }

    /** `updateUserChangesSubscriptions`: bring the host index and `x`'s mirror up to date with
        `x`'s subscriptions, and tell each affected host which keys gained their first or lost
        their last observer here. It may be called with `x`'s mirror out of date; every other
        mirror must be current. When the mirror is already current it changes nothing. */
    method Reconcile(x: UserId)
      requires Base()
      requires MirroredBut(users, mirrors, x)
      modifies this
      ensures Valid()
      ensures users == old(users) && queue == old(queue)
      ensures mirrors == WriteMirror(old(mirrors), x, SubsOf(x))
      ensures old(log) <= log
      ensures Reconciled(old(hosts), hosts, old(mirrors), x, SubsOf(x), log[|old(log)|..])
      ensures MirrorIn(old(mirrors), x) == SubsOf(x) ==>
        mirrors == old(mirrors) && hosts == old(hosts) && log == old(log)
    {
      var notices;
      mirrors, hosts, notices := ReconcileStores(users, mirrors, hosts, x);
      log := log + notices;
      assert log[|old(log)|..] == notices;
    }
    /** `modifyUserChangesSubscriptions`: apply the edits to an existing user's subscriptions
        and, when they changed, store them and reconcile. A missing user is left alone. */
    method Modify(x: UserId, add: Subscriptions.Edits, rem: Subscriptions.Edits)
      requires Valid()
      modifies this
      ensures Valid() && queue == old(queue)
      ensures users == if x in old(users)
        then WriteUser(old(users), x, old(users)[x].value.(subs := Subscriptions.Edit(old(SubsOf(x)), add, rem, isHost).subs))
        else old(users)
      ensures mirrors == WriteMirror(old(mirrors), x, SubsOf(x))
      ensures old(log) <= log
      ensures Reconciled(old(hosts), hosts, old(mirrors), x, SubsOf(x), log[|old(log)|..])
      ensures x !in old(users) || !Subscriptions.Edit(old(SubsOf(x)), add, rem, isHost).changed ==>
        users == old(users) && mirrors == old(mirrors) && hosts == old(hosts) && log == old(log)
    {
      match ReadUser(users, x) {
        case Ok(None) =>
          NothingToReconcile(hosts, mirrors, x);
          assert log[|old(log)|..] == [];
        case Ok(Some(rec)) =>
          var s, changed := Subscriptions.EditSubscriptions(rec.subs, add, rem, isHost);
          if changed {
            UserWritten(users, mirrors, x, rec.(subs := s));
            users := WriteUser(users, x, rec.(subs := s));
            Reconcile(x);
          } else {
            Subscriptions.EditQuiet(rec.subs, add, rem, isHost);
            assert WriteUser(users, x, rec.(subs := s)) == users;
            NothingToReconcile(hosts, mirrors, x);
            assert log[|old(log)|..] == [];
          }
      }
    }

    /** `deleteUser`: drop all of the user's subscriptions (the `'*'` removal) and reconcile,
        then delete the user record. */
    method DeleteUser(x: UserId)
      requires Valid()
      modifies this
      ensures Valid() && queue == old(queue)
      ensures users == old(users) - {x}
      ensures mirrors == old(mirrors) - {x}
      ensures old(log) <= log
      ensures Reconciled(old(hosts), hosts, old(mirrors), x, map[], log[|old(log)|..])
    {
      Modify(x, [], [(IntKey(0), Str("*"))]);
      UserDropped(users, mirrors, x);
      users := users - {x};
    }

    /** `addUser`: replace any record of `x` by a new one created at `now`, with the given
        subscriptions and, when both strings are non-empty, one push subscription; then
        reconcile. */
    method AddUser(x: UserId, subs: Subs, session: string, push: string, now: int)
      requires Valid()
      modifies this
      ensures Valid() && queue == old(queue)
      ensures users == WriteUser(old(users), x,
        UserRecord(x, now, subs, if |session| > 0 && |push| > 0 then map[session := push] else map[]))
      ensures mirrors == WriteMirror(old(mirrors), x, subs)
      ensures old(log) <= log
    {
      var rec := UserRecord(x, now, subs, if |session| > 0 && |push| > 0 then map[session := push] else map[]);
      Replaced(users, mirrors, x, rec);
      DeleteUser(x);
      UserWritten(users, mirrors, x, rec);
      users := WriteUser(users, x, rec);
      Reconcile(x);
    }

    /** `addUserPushSubscription`: record the blob under the session for an existing user,
        writing only when it is new or different. */
    method AddPushSubscription(x: UserId, session: string, blob: string)
      requires Valid()
      modifies this`users
      ensures Valid()
      ensures users == if x in old(users)
        then WriteUser(old(users), x, old(users)[x].value.(push := old(users)[x].value.push[session := blob]))
        else old(users)
    {
      match ReadUser(users, x) {
        case Ok(None) =>
        case Ok(Some(rec)) =>
          if session !in rec.push || rec.push[session] != blob {
            UserWritten(users, mirrors, x, rec.(push := rec.push[session := blob]));
            users := WriteUser(users, x, rec.(push := rec.push[session := blob]));
          } else {
            assert rec.push[session := blob] == rec.push;
            assert WriteUser(users, x, rec) == users;
          }
      }
    }

    /** `deleteUserPushSubscription`: remove the session from an existing user's push
        subscriptions; when none is left the user is deleted. */
    method DeletePushSubscription(x: UserId, session: string)
      requires Valid()
      modifies this
      ensures Valid() && queue == old(queue)
      ensures PushDeleted(old(users), users, x, session)
      ensures Cascaded(old(users), old(mirrors), old(hosts), old(log), users, mirrors, hosts, log, x)
    {
      match ReadUser(users, x) {
        case Ok(None) =>
        case Ok(Some(rec)) =>
          if session in rec.push {
            var p := rec.push - {session};
            if p == map[] {
              DeleteUser(x);
            } else {
              UserWritten(users, mirrors, x, rec.(push := p));
              users := WriteUser(users, x, rec.(push := p));
            }
          }
      }
    }

    /** `queuePushNotification`. */
    method QueuePushNotification(x: UserId, payload: Option<string>)
      modifies this`queue
      ensures queue == old(queue) + [Pending(x, payload)]
    {
      queue := queue + [Pending(x, payload)];
    }

    /** `notifyHostObservers`: queue one plain wake-up for every user observing one of `keys` on
        host `h`, each user once. */
    method NotifyHostObservers(h: Host, keys: seq<Value>)
      requires Valid()
      modifies this`queue
      ensures |queue| >= |old(queue)| && queue[..|old(queue)|] == old(queue)
      ensures Woken(queue[|old(queue)|..], users, h, keys)
    {
      var hr: HostRecord;
      match ReadHost(hosts, h) {
        case Ok(v) => hr := v;
      }
      assert hr == HostIn(hosts, h);
      var targets := FanOut(hr, keys);
      var i := 0;
      while i < |targets|
        invariant 0 <= i <= |targets|
        invariant queue == old(queue) + Wakeups(targets[..i])
      {
        QueuePushNotification(targets[i], None);
        assert targets[..i + 1] == targets[..i] + [targets[i]];
        i := i + 1;
      }
      assert targets[..|targets|] == targets;
      assert queue[|old(queue)|..] == Wakeups(targets);
      WokenExactly(users, mirrors, hosts, h, keys, targets);
    }

    /** The session loop of `sendQueuedPushNotifications` for one queued notification: send it
        through each of the user's push subscriptions as they were when it started, and delete
        each one reported expired. */
    method SendOne(y: UserId, payload: Option<string>, send: Sender)
      requires Valid()
      modifies this
      ensures Valid() && queue == old(queue)
      ensures ItemDelivered(old(users), users, y, payload, send)
      ensures Cascaded(old(users), old(mirrors), old(hosts), old(log), users, mirrors, hosts, log, y)
    {
      var p: map<string, string>;
      match PushSubscriptions(users, y) {
        case Ok(v) => p := v;
      }
      var todo := p.Keys;
      SendingInit(users, y, payload, send);
      while todo != {}
        invariant Valid() && queue == old(queue)
        invariant p == PushOf(old(users), y) && todo <= p.Keys
        invariant Sending(old(users), users, y, payload, send, todo)
        invariant Cascaded(old(users), old(mirrors), old(hosts), old(log), users, mirrors, hosts, log, y)
        decreases todo
      {
        var session :| session in todo;
        ghost var u1, m1, h1, l1 := users, mirrors, hosts, log;
        var u := Envelope.Unpack(p[session]);
        if u.name == Some(PushTag) {
          var d := send(u.value.value, Outgoing(payload));
          if d.Sent? && d.expired {
            DeletePushSubscription(y, session);
            CascadeStep(old(users), old(mirrors), old(hosts), old(log), u1, m1, h1, l1,
                        users, mirrors, hosts, log, y);
          }
        }
        SendingStep(old(users), u1, users, y, payload, send, todo, session);
        todo := todo - {session};
      }
      SendingEnd(old(users), users, y, payload, send);
    }

    /** `sendQueuedPushNotifications`: send every queued notification, in order, then empty the
        queue. */
    method SendQueuedPushNotifications(send: Sender)
      requires Valid()
      modifies this
      ensures Valid() && queue == []
      ensures Delivered(old(users), users, old(queue), send)
      ensures NoneDeleted(old(users), old(mirrors), old(hosts), old(log), users, mirrors, hosts, log)
    {
      DeliveredNone(users, send);
      if queue == [] {
        return;
      }
      var items := queue;
      var i := 0;
      while i < |items|
        invariant 0 <= i <= |items| && items == old(queue)
        invariant Valid() && queue == items
        invariant Delivered(old(users), users, items[..i], send)
        invariant NoneDeleted(old(users), old(mirrors), old(hosts), old(log), users, mirrors, hosts, log)
      {
        ghost var u1, m1, h1, l1 := users, mirrors, hosts, log;
        SendOne(items[i].user, items[i].payload, send);
        DeliveredStep(old(users), u1, users, items[..i], items[i], send);
        NoneDeletedStep(old(users), old(mirrors), old(hosts), old(log), u1, m1, h1, l1,
                      users, mirrors, hosts, log, items[i].user);
        assert items[..i + 1] == items[..i] + [items[i]];
        i := i + 1;
      }
      assert items[..|items|] == items;
      queue := [];
    }
  }
}
