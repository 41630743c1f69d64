/** The three kinds of persisted record and their tagged reads and writes. Storage keys are
    `u/md5(userID)`, `o/u/md5(userID)` and `o/h/md5(host)`; md5 is taken as injective, so each
    kind of record is a map keyed directly by the user ID or the host. */
module Store {

  import opened Wrappers
  import Envelope

  type UserId = string
  type Host = string
  type Key = string

  /** A user's subscriptions, field `s`: host to list of keys. An absent `s` is the empty map. */
  type Subs = map<Host, seq<Key>>

  /** The user record `u/…`: `i`, `d`, `s` and `p` (session ID to push-subscription blob; an
      absent `p` is the empty map). */
  datatype UserRecord = UserRecord(id: UserId, created: int, subs: Subs, push: map<string, string>)

  /** The host record `o/h/…`: `u`, the user IDs in position order, and `k`, each observed key
      with the positions (into `u`) of its observers. */
  datatype HostRecord = HostRecord(users: seq<UserId>, keys: map<Key, seq<nat>>)

  const EmptyHost := HostRecord([], map[])

  /** A stored value: the envelope `tag:json(value)`, with the payload kept as a typed value. */
  datatype Stored<T> = Stored(tag: string, value: T)

  const UserTag := "w"
  const MirrorTag := "w"
  const HostTag := "q"

  /** The record tags contain no colon, so unpacking a stored envelope gives the tag back. */
  lemma TagsSurviveUnpack(payload: string)
    ensures Envelope.Unpack(Envelope.Pack(UserTag, payload)).name == Some(UserTag)
    ensures Envelope.Unpack(Envelope.Pack(HostTag, payload)).name == Some(HostTag)
  {
    Envelope.UnpackPack(UserTag, payload);
    Envelope.UnpackPack(HostTag, payload);
  }

  /** `getUserData`: null for a missing record, the value under tag `w`, otherwise an exception. */
  function ReadUser(users: map<UserId, Stored<UserRecord>>, id: UserId): (r: Result<Option<UserRecord>>)
    ensures id !in users ==> r == Ok(None)
    ensures id in users ==> (r.Ok? <==> users[id].tag == UserTag)
    ensures id in users && r.Ok? ==> r.value == Some(users[id].value)
  {
    if id !in users then Ok(None)
    else if users[id].tag == UserTag then Ok(Some(users[id].value))
    else Err(CorruptRecord(UserTag, users[id].tag))
  }

  /** `getObserverUserKeys`: the empty map for a missing mirror, the value under tag `w`,
      otherwise an exception. */
  function ReadMirror(mirrors: map<UserId, Stored<Subs>>, id: UserId): (r: Result<Subs>)
    ensures id !in mirrors ==> r == Ok(map[])
    ensures id in mirrors ==> (r.Ok? <==> mirrors[id].tag == MirrorTag)
    ensures id in mirrors && r.Ok? ==> r.value == mirrors[id].value
  {
    if id !in mirrors then Ok(map[])
    else if mirrors[id].tag == MirrorTag then Ok(mirrors[id].value)
    else Err(CorruptRecord(MirrorTag, mirrors[id].tag))
  }

  /** `getObserverHostData`: an empty record (no keys, no users) for a missing host, the value
      under tag `q`, otherwise an exception. */
  function ReadHost(hosts: map<Host, Stored<HostRecord>>, host: Host): (r: Result<HostRecord>)
    ensures host !in hosts ==> r == Ok(EmptyHost)
    ensures host in hosts ==> (r.Ok? <==> hosts[host].tag == HostTag)
    ensures host in hosts && r.Ok? ==> r.value == hosts[host].value
  {
    if host !in hosts then Ok(EmptyHost)
    else if hosts[host].tag == HostTag then Ok(hosts[host].value)
    else Err(CorruptRecord(HostTag, hosts[host].tag))
  }

  /** `setUserData`: always stores the record under tag `w`. */
  function WriteUser(users: map<UserId, Stored<UserRecord>>, id: UserId, rec: UserRecord)
    : (r: map<UserId, Stored<UserRecord>>)
    ensures ReadUser(r, id) == Ok(Some(rec))
    ensures r.Keys == users.Keys + {id}
    ensures forall other :: other != id && other in users ==> r[other] == users[other]
  {
    users[id := Stored(UserTag, rec)]
  }

  /** `setObserverUserKeys`: an empty mirror deletes the record, any other is stored under `w`. */
  function WriteMirror(mirrors: map<UserId, Stored<Subs>>, id: UserId, s: Subs)
    : (r: map<UserId, Stored<Subs>>)
    ensures ReadMirror(r, id) == Ok(s)
    ensures id in r <==> s != map[]
    ensures r.Keys - {id} == mirrors.Keys - {id}
    ensures forall other :: other != id && other in mirrors ==> other in r && r[other] == mirrors[other]
  {
    if s == map[] then mirrors - {id} else mirrors[id := Stored(MirrorTag, s)]
  }

  /** `setObserverHostData`: a record without keys deletes the host record (its `u` goes with
      it), any other is stored under `q`. */
  function WriteHost(hosts: map<Host, Stored<HostRecord>>, host: Host, hr: HostRecord)
    : (r: map<Host, Stored<HostRecord>>)
    ensures ReadHost(r, host) == Ok(if hr.keys == map[] then EmptyHost else hr)
    ensures host in r <==> hr.keys != map[]
    ensures r.Keys - {host} == hosts.Keys - {host}
    ensures forall other :: other != host && other in hosts ==> other in r && r[other] == hosts[other]
  {
    if hr.keys == map[] then hosts - {host} else hosts[host := Stored(HostTag, hr)]
  }
}
