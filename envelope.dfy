/** The tagged envelope every persisted value is stored in: `name:payload`, where the payload is
    the JSON text of the value (JSON itself is not modelled; the payload is an opaque string). */
module Envelope {

  import opened Wrappers
  import Text

  /** `Utilities::pack`: the name, a colon, then the payload. */
  function Pack(name: string, payload: string): (r: string)
    ensures |r| == |name| + 1 + |payload| && r[|name|] == ':'
    ensures r[..|name|] == name && r[|name| + 1..] == payload
  {
    name + ":" + payload
  }

  /** What `Utilities::unpack` returns: both parts are null when the input has no colon. */
  datatype Unpacked = Unpacked(name: Option<string>, value: Option<string>)

  /** `Utilities::unpack`: split at the FIRST colon (`explode` with limit 2). */
  function Unpack(s: string): (r: Unpacked)
    ensures r.name.Some? <==> ':' in s
    ensures r.name.Some? <==> r.value.Some?
    ensures r.name.Some? ==> ':' !in r.name.value && Pack(r.name.value, r.value.value) == s
  {
    match Text.FirstIndexOf(s, ':')
    case None => Unpacked(None, None)
    case Some(i) =>
      assert s == s[..i] + ":" + s[i + 1..];
      Unpacked(Some(s[..i]), Some(s[i + 1..]))
  }

  /** A name without a colon survives the round trip, whatever the payload holds. */
  lemma {:induction false} UnpackPack(name: string, payload: string)
    requires ':' !in name
    ensures Unpack(Pack(name, payload)) == Unpacked(Some(name), Some(payload))
  {
    var s := Pack(name, payload);
    assert s[..|name|] == name;
    assert s[|name| + 1..] == payload;
    assert ':' in s by { assert s[|name|] == ':'; }
  }
}
