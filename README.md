# Dots Mesh observer: subscription index and reconciler

A Dots Mesh observer watches hosts on behalf of its users. When something changes on a watched
host, the observer wakes the users who asked for it with a push notification. The observer keeps
three kinds of record:

- **User record** (`u/…`): the id, the creation time, the subscriptions `s` (host to list of
  keys) and the push subscriptions `p` (session to endpoint blob).
- **Mirror** (`o/u/…`): the subscriptions as they were when last reconciled.
- **Host record** (`o/h/…`): a list `u` of user IDs and a map `k` from each observed key to the
  positions in `u` of its observers.

Each record is stored in a tagged envelope `name:payload`.

The model covers:

- `Envelope`: the envelope.
- `Store`: the tagged reads and the writes that delete when empty.
- `Subscriptions`: the subscription editor.
- `Tokens`, `HostIndex` and `Reconciler`: the reconciler, which turns the difference between the
  subscriptions and the mirror into updates of the host records and into reports to each host of
  the keys that gained their first or lost their last observer.
- `HostIndex.FanOut`: the fan-out from changed keys to queued notifications.
- `Observer`: the user and push-subscription operations and the flush of the notification queue.
- `Front`: the host check and the API dispatch of the front controller.

The state is the class `Observer.Observer`. Its fields are the three stores (maps keyed by user ID
and host), the queue, and a ghost log of the federation calls made. Its invariant `Valid` says:

- every record carries its tag;
- every stored host record is well formed;
- every mirror equals its user's current subscriptions;
- the *index invariant* `Reconciler.Indexed` holds: for every host H and key K, the users at the
  positions listed under K in H's record are exactly the users whose mirror lists K under H.

Every operation of the class keeps `Valid`.

The reconciler works on (host, key) pairs. The source instead joins each pair into a `host:key`
string and splits it again at the first colon. `Tokens` models that string form as written, shows
that it agrees with the pairs whenever no host holds a colon, and exhibits a host with a port for
which it does not (see `## Findings`).

## Model

| member | source | states |
|---|---|---|
| Envelope.Pack | app/classes/Utilities.php:114-117 | the name, then a colon at position `\|name\|`, then the payload |
| Envelope.Unpack | app/classes/Utilities.php:125-129 | both parts are null exactly when there is no colon; otherwise the name has no colon and packing the two parts gives the input back |
| Envelope.UnpackPack | app/classes/Utilities.php:114-129 | a name without a colon and any payload survive pack then unpack |
| Store.TagsSurviveUnpack | app/classes/Utilities.php:168-193 | the tags `w` and `q` come back from unpacking any stored envelope |
| Store.ReadUser | app/classes/Utilities.php:168-181 | a missing record reads as null; a record under another tag than `w` is an error; otherwise the stored value |
| Store.WriteUser | app/classes/Utilities.php:189-193 | the record then reads back as written; no other user's record changes |
| Store.ReadMirror | app/classes/Utilities.php:467-480 | a missing mirror reads as empty; another tag than `w` is an error; otherwise the stored value |
| Store.WriteMirror | app/classes/Utilities.php:488-497 | reads back as written; the record exists exactly when the mirror is non-empty; no other mirror changes |
| Store.ReadHost | app/classes/Utilities.php:514-527 | a missing host record reads as empty `k` and `u`; another tag than `q` is an error |
| Store.WriteHost | app/classes/Utilities.php:535-544 | reads back as written, or as empty when `k` is empty; the record exists exactly when `k` is non-empty; no other host changes |
| Lists.Find | app/classes/Utilities.php:327 | `array_search`: none exactly when absent, otherwise the first position holding the value |
| Lists.RemoveAtDupFree | app/classes/Utilities.php:329-334 | removing one position of a duplicate-free list removes exactly that value and keeps it duplicate-free |
| Lists.RemoveAt | app/classes/Utilities.php:329-334 | `unset` then `array_values`: one element fewer, the elements before `i` in place, the ones after shifted down by one |
| Lists.Dedup | app/classes/Utilities.php:333 | `array_unique` then `array_values`: duplicate-free, same members, no longer than the input |
| Lists.DedupInFirstOrder | app/classes/Utilities.php:333 | the kept values come in the order of their first positions in the input |
| Lists.DedupOfDupFree | app/classes/Utilities.php:333 | `array_unique` does nothing to a duplicate-free list |
| Text.Lower | app/classes/Utilities.php:322 | `strtolower`: same length, each character lowered by `LowerChar` (ASCII A-Z only) |
| Text.TrimStart | app/classes/Utilities.php:322 | a suffix of the input that does not start with a trimmed character; everything cut was trimmable |
| Text.TrimEnd | app/classes/Utilities.php:322 | a prefix of the input that does not end with a trimmed character; everything cut was trimmable |
| Text.Trim | app/classes/Utilities.php:322 | `trim`: neither end of the result is trimmable |
| Text.TrimStretch | app/classes/Utilities.php:322 | `trim` keeps one stretch of the input; everything cut before and after it is trimmable |
| Text.FirstIndexOf | app/classes/Utilities.php:127 | none exactly when the character is absent, otherwise its first position |
| Subscriptions.NormalizedFrom | app/classes/Utilities.php:322-323 | `trim(strtolower(…))` is a stretch of the input, lowered character by character (its ends are not trimmable, by `Text.Trim`) |
| Subscriptions.NormalizedNoCapital | app/classes/Utilities.php:322-323 | a normalised host holds no ASCII capital |
| Subscriptions.EntryHost | app/classes/Utilities.php:321-324 | an argument entry names a host exactly when its key is a string, its value an array and the normalised key passes `isHost`; it then yields that host and the array's values |
| Subscriptions.RemoveHostKeys | app/classes/Utilities.php:325-340 | the inner removal loop computes the specification `RemoveKeys` |
| Subscriptions.AddHostKeys | app/classes/Utilities.php:348-357 | the inner addition loop computes the specification `AddKeys` |
| Subscriptions.RemoveEntries | app/classes/Utilities.php:320-343 | the outer removal loop computes `RemoveAll` |
| Subscriptions.AddEntries | app/classes/Utilities.php:344-360 | the outer addition loop computes `AddAll` |
| Subscriptions.EditSubscriptions | app/classes/Utilities.php:310-360 | the whole edit computes `Edit`: the `*` wildcard clears everything, otherwise the removals run, then the additions |
| Subscriptions.EditQuiet | app/classes/Utilities.php:310-364 | when `hasChange` stays false the subscriptions are unchanged |
| Subscriptions.EditKeepsLists | app/classes/Utilities.php:328-338 | every host's list stays duplicate-free and no host keeps an empty list |
| Subscriptions.EditPairs | app/classes/Utilities.php:314-360 | for duplicate-free key lists, the pairs afterwards are the added ones plus (unless the wildcard was given) the old ones minus the removed ones; `hasChange` holds exactly when some string key was added, or when something was removed or cleared |
| Subscriptions.DuplicateSurvivesRemoval | app/classes/Utilities.php:327-335 | a key listed twice under a host survives one removal of it: the list keeps one copy and `hasChange` is set |
| Tokens.Pairs | app/classes/Utilities.php:559-567 | `(h, k)` is a pair exactly when `k` is listed under `h` |
| Tokens.Flatten | app/classes/Utilities.php:559-567 | every subscribed pair has its `host:key` token, every token holds a colon, and with colon-free hosts every token splits back into a subscribed pair |
| Tokens.AsWrittenDelta | app/classes/Utilities.php:568-582 | every pair it yields has a colon-free host and joins back to a token of the new subscriptions that the old ones lack |
| Tokens.Split | app/classes/Utilities.php:571 | `explode(':', t, 2)`: a colon-free host and a key that join back to `t` |
| Tokens.SplitJoin | app/classes/Utilities.php:559-576 | splitting a joined token gives back a colon-free host and any key |
| Tokens.AsWrittenAgrees | app/classes/Utilities.php:559-582 | with colon-free hosts the string tokens compute exactly the pair difference |
| Tokens.AsWrittenMissesPortHost | app/classes/Utilities.php:568-582 | a concrete pair of maps where the string tokens see no change but a pair was added |
| HostIndex.ObservedKeys | app/classes/Utilities.php:599-627 | in a well-formed host record a key is in `k` exactly when it has an observer |
| HostIndex.AddPositions | app/classes/Utilities.php:597-609 | the addition loop: each added key gets the user's position, once; `hasChange` exactly when one was missing |
| HostIndex.WithoutPosition | app/classes/Utilities.php:615-619 | the list unchanged when the position is absent; otherwise one occurrence fewer and nothing else changed; in a duplicate-free list exactly that position is gone |
| HostIndex.RemovePositions | app/classes/Utilities.php:611-629 | the removal loop: the position is dropped from each removed key; a key whose list empties is deleted and reported; `hasChange` exactly when a position was dropped |
| HostIndex.ApplyHostDelta | app/classes/Utilities.php:590-631 | the user's position is appended only when absent and `u` stays duplicate-free; each added key gets the user as observer and each removed key loses it; exactly the absent added keys are reported as added, and exactly the removed keys whose only observer was the user as removed |
| HostIndex.FanOut | app/classes/Utilities.php:428-444 | the collected users are the reach trail with repeats dropped: each user once, in the order first reached (`$usersToNotify` keeps insertion order); they are duplicate-free and exactly those reached through the string keys |
| HostIndex.CollectListed | app/classes/Utilities.php:433-441 | the inner loop appends the users at the listed positions that exist in `u`, each only when not yet collected |
| HostIndex.CollectStep | app/classes/Utilities.php:434-439 | one more position appends its user exactly when the position exists and the user is new |
| HostIndex.TrailReached | app/classes/Utilities.php:430-444 | the trail passes exactly the users reached through the string keys |
| HostIndex.ReachedByKeys | app/classes/Utilities.php:430-444 | a user is reached exactly when it observes one of the string keys |
| Reconciler.VisitHost | app/classes/Utilities.php:588-635 | one host iteration keeps the host loop's invariant: that host becomes indexed for the new mirror and its report is exact |
| Reconciler.UpdateHosts | app/classes/Utilities.php:586-636 | `Reconciled`: host records indexed for the new mirror; no user leaves a `u`; only hosts with a changed pair are touched; one report per host with a transition, naming exactly the keys that went from no observer to some and from some to none; nothing at all when no pair changed |
| Reconciler.NothingToReconcile | app/classes/Utilities.php:579-587 | with the mirror already current, no host is touched, nothing is reported, and rewriting the mirror changes nothing |
| Observer.ReconcileStores | app/classes/Utilities.php:553-638 | the stores stay valid, the mirror becomes the current subscriptions, the host loop is `Reconciled`, and a second run changes nothing |
| Observer.ReconcileOutcome | app/classes/Utilities.php:638 | storing the subscriptions as the mirror after the host loop restores every invariant |
| Observer.PushSubscriptions | app/classes/Utilities.php:287-297 | the stored `p` of the user, empty for a missing user, an error for a record under another tag |
| Observer.Outgoing | app/classes/Utilities.php:407 | no payload for a wake-up; otherwise `pack('', payload)`, which unpacks to an empty name and the payload |
| Observer.PrunedExactly | app/classes/Utilities.php:391-414 | a session survives the flush exactly when no notification queued for its user reported it expired |
| Observer.WokenExactly | app/classes/Utilities.php:426-449 | through the index, the fan-out reaches exactly the users subscribed on that host to one of the keys |
| Observer.Observer.Reconcile | app/classes/Utilities.php:553-661 | keeps `Valid`, sets the mirror to the current subscriptions, appends to the log a report that is `Reconciled`, and changes nothing when the mirror was current |
| Observer.Observer.Modify | app/classes/Utilities.php:305-364 | an unknown user is left alone; otherwise the record gets the `Edit` result; with no change nothing is written and nothing reconciled |
| Observer.Observer.DeleteUser | app/classes/Utilities.php:225-230 | the user record and mirror are gone, the hosts are `Reconciled` for an empty subscription map, and `Valid` holds |
| Observer.Observer.AddUser | app/classes/Utilities.php:203-220 | the record is replaced by a new one with the given time and subscriptions, with one push subscription exactly when both strings are non-empty; the mirror equals the subscriptions |
| Observer.Observer.AddPushSubscription | app/classes/Utilities.php:239-257 | an unknown user is left alone; otherwise the session maps to the blob and nothing else changes |
| Observer.CascadeStep | app/classes/Utilities.php:265-280 | two push-subscription deletions for one user together do at most one `deleteUser` |
| Observer.Observer.DeletePushSubscription | app/classes/Utilities.php:265-280 | the session is gone; the user is deleted exactly when that emptied a non-empty `p`; when the user stays (or was absent), mirrors, hosts and log are untouched; when it goes, its mirror goes, the log only grows and the appended calls are the `deleteUser` reconciliation (`Reconciled` for an empty subscription map) |
| Observer.Observer.QueuePushNotification | app/classes/Utilities.php:376-379 | appends one entry to the queue |
| Observer.Observer.NotifyHostObservers | app/classes/Utilities.php:426-449 | appends plain wake-ups, one per user, for exactly the users subscribed on the host to one of the string keys |
| Observer.Observer.SendOne | app/classes/Utilities.php:391-414 | for one queued entry: every session whose send reports it expired is removed, the others stay, and no other user changes; mirrors, hosts and log are untouched unless the user is deleted, and then they change exactly by its `deleteUser` reconciliation |
| Observer.NoneDeletedStep | app/classes/Utilities.php:393-414 | one more queued notification keeps the log growing, and keeps everything else when no user has been deleted |
| Observer.Observer.SendQueuedPushNotifications | app/classes/Utilities.php:386-417 | the queue is empty afterwards; every user keeps exactly its surviving sessions and the rest of its record; a user whose sessions all expired is deleted; the log only grows, and when no user was deleted mirrors, hosts and log are untouched |
| Front.InternalHost | app/index.php:51-52 | present exactly with the exact `dotsmesh.` prefix; then the lower-cased remainder |
| Front.AcceptHost | app/index.php:51-58 | served exactly when the prefix is there and the lower-cased rest is configured, or the prefix is missing and an empty entry is configured; a served host yields its internal name |
| Front.AcceptsAnySpelling | app/index.php:52-54 | a configured lower-case host is served under any case spelling after the prefix |
| Front.UpperCasePrefixRejected | app/index.php:52-58 | an upper-case prefix is not served unless an empty entry is configured |
| Front.Field | app/index.php:97 | `isset`: a result is a non-null value stored under the key; no entry with the key gives none; the first entry with the key gives its value, or none when that value is null |
| Front.HandlePost | app/index.php:92-140 | no response exactly without the `api` query; `invalidRequestData` exactly for an ill-formed body |
| Front.Serve | app/index.php:51-140 | 503 exactly for hosts that are not served |
| Front.EndpointsUnreached | app/index.php:97-121 | an ill-formed body or an unknown method never reaches an endpoint |
| Front.UnknownMethod | app/index.php:107-121 | an unknown method gets `invalidEndpoint` / `Invalid method!` |
| Front.KnownMethod | app/index.php:108-128 | a known method gets its endpoint's result, or the code and message of its `EndpointError`; any other exception propagates |
| Front.Render | app/index.php:111-132 | every envelope is an array whose first field is the string `status` |
| Front.RenderDistinguishes | app/index.php:111-132 | `status` is `ok`, `error` or `invalidRequestData` for the three envelopes, and the result, code and message read back |

## Left out

- JSON is not modelled. Payloads are typed values and the envelope payload is an opaque string. The `json_decode` result of a request body is a `Values.Value`, and every PHP array is a sequence of entries with distinct keys.
- md5 storage keys are taken as injective, so each store is a map keyed by user ID or host.
- `time()` is a parameter of `AddUser`.
- `isHost` (`filter_var`) is an uninterpreted function held by the class.
- Logging is not modelled.
- The HTTP request `makeServerRequest` is not modelled. Each federation call is an entry of the ghost log, and its failures are swallowed as in the source.
- The log records the calls host by host as the host loop runs. The source sends them after the mirror is written, in the order of its host list. Only the set of calls is specified, not their order.
- The order in which hosts, added keys, removed keys and sessions are visited is left open (the loops pick any remaining element). The results stated do not depend on that order.
- WebPush delivery is the function `Observer.Sender`. It maps the unpacked subscription data and the payload to `Skipped` (data that is not a subscription array and two strings) or to success plus expiry. It is deterministic in its inputs. The VAPID subject built from `DOTSMESH_OBSERVER_HOST_INTERNAL` is not modelled.
- Observer.Sender: never throws. In the source, the WebPush library calls at app/classes/Utilities.php:400-407 have no `try`/`catch` around them. An exception from the library aborts the flush: for example, the constructor's check of the VAPID keys, which come from a blob the client stored. The notifications queued after the failing one are then never sent, and the queue is not cleared (line 416). `Observer.Observer.SendQueuedPushNotifications` always delivers the whole queue and ends with it empty.
- Corrupt-record errors are modelled only in the `Store` reads and in `Observer.PushSubscriptions`. The class invariant `Valid` keeps every record under its tag, so the class operations never meet an exception.
- `addUser`'s subscriptions argument is typed `Subs` (host to key list). The signup endpoint passes an unvalidated array, whose other shapes are not modelled.
- PHP's loose comparison is modelled only where it decides something here:
  - `'*'` matches the string `*` and `true` (PHP 8 semantics);
  - `null` matches an empty configured host.
- PHP strings are bytes; the model's `string` is a sequence of characters. No modelled behaviour depends on the difference: `strtolower` changes only A-Z, `trim` strips six ASCII characters, `explode(':')` splits at an ASCII character and the `dotsmesh.` prefix is ASCII.
- Numeric-string coercion in `array_search` and in array keys is not modelled (for example `"10" == "1e1"`, or a numeric user ID turning into an integer key).
- A host whose key list just emptied during removal: the source then looks its further keys up in a missing list. In PHP 7 `array_search` then returns null with a warning, so the branch runs and does nothing (`hasChange` is already set). PHP 8 throws a `TypeError` instead. The model skips those keys, which has the same effect as PHP 7.
- Locks (the "todo lock" sites) and concurrency are not modelled; the model is sequential.
- The framework set-up of the front controller is not modelled: configuration checks, data directory, logger, class loading and the CORS `OPTIONS` route.
- The endpoint classes, their argument checks, the user-existence check of `UserEndpoint` and `EndpointError` are not part of this model. `Front.Endpoints` is a parameter.
- `generateRandomBase62String`, `getHash`, `userExists` and the key builders are not part of this model.
- Subscriptions.EditPairs: holds only when every key list is duplicate-free. `addUser` stores the subscriptions it is given as they are (app/classes/Utilities.php:210-212), so a list may hold a key twice. Removing that key then deletes only its first copy, and the pair stays subscribed while `hasChange` is set. `Subscriptions.DuplicateSurvivesRemoval` proves this case.
- Observer.Observer.SendQueuedPushNotifications: when the flush deletes users, each deletion's reconciliation is stated only through `Valid` and the log growing, not report by report (`SendOne` states it for one queued entry).
- Observer.Observer.AddUser: its effect on the host records is stated only through `Valid` (the index matches the new subscriptions), not as a report of the two reconciliations it runs.

## Findings

| source | as written | input that shows it | evidently intended | confidence | as-written member | corrected member |
|---|---|---|---|---|---|---|
| app/classes/Utilities.php:559-582 | subscription pairs are joined as `host:key` and split again at the first colon | a user moves key `k` of host `example.com:8080` (a host with a port passes `isHost`) to key `8080:k` of host `example.com`: both flatten to `example.com:8080:k`, the difference is empty, and the host records are never updated | the added and removed (host, key) pairs | not executed | Tokens.AsWrittenMissesPortHost | Tokens.Pairs |
