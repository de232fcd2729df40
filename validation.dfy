/** The argument checks of the Init constructors: validateRequiredArgs,
    validateSecurityPacket (with timestamp injection) and validateRequestPacket.
    Each returns what it would store in the Init object, or the error that
    aborts construction. */
module Validation {
  import opened Wrappers
  import opened Json
  import Signing

  /** The Learnosity services an Init object is built for. */
  datatype Service = Assess | Author | Data | Items | Questions | Reports | Events

  /** Service.getKey(). */
  function Key(s: Service): string
  {
    match s
    case Assess => "assess"
    case Author => "author"
    case Data => "data"
    case Items => "items"
    case Questions => "questions"
    case Reports => "reports"
    case Events => "events"
  }

  /** Why construction fails; each is an exception thrown by the constructor. */
  datatype InitError =
    | MissingService                 // checkNotNull(service)
    | InvalidSecret                  // secret null or ""
    | MissingSecurityPacket          // checkNotNull(securityPacket)
    | MalformedSecurityPacket        // org.json cannot turn the argument into an object
    | MissingUserIdForQuestions      // Questions without user_id
    | EmptySecurityPacket            // no key at all
    | InvalidSecurityKey(key: string) // a key outside VALID_SECURITY_KEYS
    | MissingRequestPacket           // a null request argument
    | MalformedRequestPacket         // org.json cannot turn the argument into an object

  /** The security argument after org.json has looked at it: null, not
      convertible, or an object whose values are strings. */
  datatype PacketInput = NullPacket | UnparsablePacket | ParsedPacket(fields: map<string, string>)

  /** The request argument: null, a String (its text and, when it parses, the
      object it denotes), or a JSONObject, Map or bean already converted. */
  datatype RequestInput =
    | NullRequest
    | TextRequest(text: string, parsed: Option<JsonObject>)
    | StructuredRequest(obj: JsonObject)

  /** What validateRequiredArgs stores. */
  datatype Credentials = Credentials(service: Service, secret: string, packet: map<string, string>)

  /** What validateRequestPacket stores: requestPacket and requestString. */
  datatype RequestData = RequestData(packet: JsonObject, text: string)

  predicate IsSecurityKey(k: string)
  {
    k in Signing.SecurityKeys
  }

  /** The parsed security packet passes validateSecurityPacket. */
  predicate PacketAccepted(service: Service, packet: map<string, string>)
  {
    && (service == Questions ==> "user_id" in packet)
    && packet != map[]
    && forall k :: k in packet ==> IsSecurityKey(k)
  }

  /** `e` is the exception validateSecurityPacket throws for `input`; the
      checks are taken in the order validateSecurityPacket runs them, and which
      invalid key is named depends on the packet's iteration order. */
  predicate PacketRejectedWith(service: Service, input: PacketInput, e: InitError)
  {
    match input
    case NullPacket => e == MissingSecurityPacket
    case UnparsablePacket => e == MalformedSecurityPacket
    case ParsedPacket(p) =>
      if service == Questions && "user_id" !in p then e == MissingUserIdForQuestions
      else if p == map[] then e == EmptySecurityPacket
      else e.InvalidSecurityKey? && e.key in p && !IsSecurityKey(e.key)
  }

  /** The constructor arguments pass validateRequiredArgs. */
  predicate ArgsAccepted(service: Option<Service>, security: PacketInput, secret: Option<string>)
  {
    service.Some? && secret.Some? && secret.value != ""
    && security.ParsedPacket? && PacketAccepted(service.value, security.fields)
  }

  /** `e` is the exception validateRequiredArgs throws: service first, then the
      secret, then the security packet. A secret of blanks is not rejected. */
  predicate ArgsRejectedWith(service: Option<Service>, security: PacketInput, secret: Option<string>,
                             e: InitError)
  {
    if service.None? then e == MissingService
    else if secret.None? || secret.value == "" then e == InvalidSecret
    else PacketRejectedWith(service.value, security, e)
  }

  /** Arguments are either accepted or rejected with some error, never both. */
  lemma ArgsAcceptedOrRejected(service: Option<Service>, security: PacketInput, secret: Option<string>)
    ensures ArgsAccepted(service, security, secret) <==> !exists e :: ArgsRejectedWith(service, security, secret, e)
  {
    if service.None? {
      assert ArgsRejectedWith(service, security, secret, MissingService);
    } else if secret.None? || secret.value == "" {
      assert ArgsRejectedWith(service, security, secret, InvalidSecret);
    } else {
      match security
      case NullPacket =>
        assert ArgsRejectedWith(service, security, secret, MissingSecurityPacket);
      case UnparsablePacket =>
        assert ArgsRejectedWith(service, security, secret, MalformedSecurityPacket);
      case ParsedPacket(p) =>
        if service.value == Questions && "user_id" !in p {
          assert ArgsRejectedWith(service, security, secret, MissingUserIdForQuestions);
        } else if p == map[] {
          assert ArgsRejectedWith(service, security, secret, EmptySecurityPacket);
        } else if !PacketAccepted(service.value, p) {
          var k :| k in p && !IsSecurityKey(k);
          assert ArgsRejectedWith(service, security, secret, InvalidSecurityKey(k));
        }
    }
  }

  /** The packet after the timestamp check: the formatted `now` is added under
      `timestamp` when that key is missing; nothing else is added or altered. */
  function WithTimestamp(packet: map<string, string>, now: string): (r: map<string, string>)
    ensures "timestamp" in r
    ensures r.Keys == packet.Keys + {"timestamp"}
    ensures forall k :: k in packet ==> r[k] == packet[k]
    ensures "timestamp" !in packet ==> r["timestamp"] == now
  {
    if "timestamp" in packet then packet else packet["timestamp" := now]
  }

  /** validateSecurityPacket: the Questions user_id rule, then emptiness, then
      every key against VALID_SECURITY_KEYS, then timestamp injection. */
  method ValidateSecurityPacket(service: Service, input: PacketInput, now: string)
    returns (r: Result<map<string, string>, InitError>)
    ensures r.Success? <==> input.ParsedPacket? && PacketAccepted(service, input.fields)
    ensures r.Success? ==> r.value == WithTimestamp(input.fields, now)
    ensures r.Failure? ==> PacketRejectedWith(service, input, r.error)
  {
    if input.NullPacket? {
      return Failure(MissingSecurityPacket);
    }
    if input.UnparsablePacket? {
      return Failure(MalformedSecurityPacket);
    }
    var packet := input.fields;
    if service == Questions && "user_id" !in packet {
      return Failure(MissingUserIdForQuestions);
    }
    if packet == map[] {
      return Failure(EmptySecurityPacket);
    }
    var unseen := packet.Keys;
    while unseen != {}
      invariant unseen <= packet.Keys
      invariant forall k :: k in packet && k !in unseen ==> IsSecurityKey(k)
      decreases unseen
    {
      var key :| key in unseen;
      if !IsSecurityKey(key) {
        return Failure(InvalidSecurityKey(key));
      }
      unseen := unseen - {key};
    }
    if "timestamp" !in packet {
      packet := packet["timestamp" := now];
    }
    r := Success(packet);
  }

  /** validateRequiredArgs: service, then secret, then the security packet. */
  method ValidateRequiredArgs(service: Option<Service>, security: PacketInput, secret: Option<string>,
                              now: string)
    returns (r: Result<Credentials, InitError>)
    ensures r.Success? <==> ArgsAccepted(service, security, secret)
    ensures r.Success? ==> r.value == Credentials(service.value, secret.value,
                                                   WithTimestamp(security.fields, now))
    ensures r.Failure? ==> ArgsRejectedWith(service, security, secret, r.error)
  {
    if service.None? {
      return Failure(MissingService);
    }
    if secret.None? || secret.value == "" {
      return Failure(InvalidSecret);
    }
    var packet := ValidateSecurityPacket(service.value, security, now);
    if packet.Failure? {
      return Failure(packet.error);
    }
    r := Success(Credentials(service.value, secret.value, packet.value));
  }

  /** validateRequestPacket: the request text that will be signed and emitted is
      the caller's own text when a String is given, and the printer's text of
      the object otherwise. */
  method ValidateRequestPacket(input: RequestInput, ser: JsonObject -> string)
    returns (r: Result<RequestData, InitError>)
    ensures input.NullRequest? ==> r == Failure(MissingRequestPacket)
    ensures input.TextRequest? ==>
              r == if input.parsed.Some? then Success(RequestData(input.parsed.value, input.text))
                   else Failure(MalformedRequestPacket)
    ensures input.StructuredRequest? ==> r == Success(RequestData(input.obj, ser(input.obj)))
  {
    match input {
      case NullRequest =>
        r := Failure(MissingRequestPacket);
      case TextRequest(text, parsed) =>
        if parsed.None? {
          r := Failure(MalformedRequestPacket);
        } else {
          r := Success(RequestData(parsed.value, text));
        }
      case StructuredRequest(obj) =>
        r := Success(RequestData(obj, ser(obj)));
    }
  }
}
