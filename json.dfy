/** JSON values as org.json holds them, and the text surgery that the envelope
    assembly performs on a serialised object. Serialisation itself belongs to
    org.json and is not modelled: it is a collaborator `ser` whose only known
    property is that it yields text delimited by braces. */
module Json {

  datatype Json =
    | Str(s: string)
    | Atom(text: string)             // a number, true, false or null, by its literal text
    | Arr(items: seq<Json>)
    | Obj(fields: map<string, Json>)

  type JsonObject = map<string, Json>

  /** What JSONObject.toString() yields: at least "{}", opened and closed by a brace. */
  predicate ObjectText(s: string)
  {
    |s| >= 2 && s[0] == '{' && s[|s| - 1] == '}'
  }

  /** The contract the model assumes of the JSON printer. */
  ghost predicate ObjectSerialiser(ser: JsonObject -> string)
  {
    forall o :: ObjectText(ser(o))
  }

  /** The security packet, whose values are all strings, as a JSON object. */
  function PacketFields(packet: map<string, string>): (o: JsonObject)
    ensures o.Keys == packet.Keys
    ensures forall k :: k in packet ==> o[k] == Str(packet[k])
  {
    map k | k in packet :: Str(packet[k])
  }

  /** `text` with its closing brace replaced by `,` + `member` + `}`: the way
      generate() adds a member to a serialised object without re-ordering it. */
  function Spliced(text: string, member: string): (r: string)
    requires ObjectText(text)
    ensures ObjectText(r)
    ensures |r| == |text| + |member| + 1
    ensures r[..|text| - 1] == text[..|text| - 1]
    ensures r[|text| - 1..] == "," + member + "}"
  {
    text[..|text| - 1] + "," + member + "}"
  }
}
