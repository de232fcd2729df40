/** The Init class: an object built once from validated arguments, whose
    security packet carries the signature of its current state, and which
    renders the per-service envelope. SHA-256 (`hash`) and JSONObject.toString()
    (`ser`) are collaborators given at construction. */
module Request {
  import opened Wrappers
  import opened Json
  import opened Signing
  import opened Validation

  /** A Java object on either side of Object.equals: setServiceOptions compares
      the `service` enum constant with String literals. */
  datatype JavaValue = EnumConstant(service: Service) | JavaString(text: string)

  /** Object.equals for the two classes involved: an enum constant is equal only
      to itself and a String only to a String with the same characters. */
  predicate JavaEquals(a: JavaValue, b: JavaValue)
  {
    a == b
  }

  /** No branch of setServiceOptions can run: a Service never equals a String,
      whatever its characters, so not even the service's own key (`Key`). */
  lemma EnumNeverEqualsString(s: Service, text: string)
    ensures !JavaEquals(EnumConstant(s), JavaString(text))
  {
  }

  /** The `output` object that generate() serialises for Assess, Author, Data,
      Items and Reports: the packet under `security`, the action when set. */
  function EnvelopeObject(packet: map<string, string>, action: string): (o: JsonObject)
    ensures "security" in o && o["security"] == Obj(PacketFields(packet))
    ensures "action" in o <==> action != ""
    ensures action != "" ==> o["action"] == Str(action)
    ensures o.Keys <= {"security", "action"}
  {
    var o := map["security" := Obj(PacketFields(packet))];
    if action != "" then o["action" := Str(action)] else o
  }

  /** The `output` object that generate() serialises last for Questions: the
      packet's own keys at the root without `domain`, plus the packet under
      `security`. */
  function QuestionsObject(packet: map<string, string>): (o: JsonObject)
    requires "security" !in packet
    ensures o.Keys == packet.Keys - {"domain"} + {"security"}
    ensures "domain" !in o
    ensures o["security"] == Obj(PacketFields(packet))
    ensures forall k :: k in packet && k != "domain" ==> o[k] == Str(packet[k])
  {
    (PacketFields(packet) - {"domain"})["security" := Obj(PacketFields(packet))]
  }

  /** The `output` object that generate() serialises for Events. */
  function EventsObject(packet: map<string, string>): (o: JsonObject)
    ensures o.Keys == {"security"} && o["security"] == Obj(PacketFields(packet))
  {
    map["security" := Obj(PacketFields(packet))]
  }

  /** The `"request":` splice of generate() as written: it runs only when the
      request text is EMPTY, so a non-empty request never reaches the output and
      an empty one leaves a member without a value. */
  function RequestSplice(text: string, requestString: string): (r: string)
    requires ObjectText(text)
    ensures ObjectText(r)
    ensures requestString != "" ==> r == text
    ensures requestString == "" ==> r == text[..|text| - 1] + ",\"request\":}"
  {
    if requestString == "" then Spliced(text, "\"request\":" + requestString) else text
  }

  /** The `"config":` splice of generate(): the request text as the value of a
      last member `config`, when it is not empty. */
  function ConfigSplice(text: string, requestString: string): (r: string)
    requires ObjectText(text)
    ensures ObjectText(r)
    ensures requestString == "" ==> r == text
    ensures requestString != "" ==> r == text[..|text| - 1] + ",\"config\":" + requestString + "}"
  {
    if requestString != "" then Spliced(text, "\"config\":" + requestString) else text
  }

  class Init {
    const service: Service
    const secret: string
    var securityPacket: map<string, string>
    var requestPacket: Option<JsonObject>
    var requestString: string
    var action: string
    var signRequestData: bool
    const hash: string -> string
    const ser: JsonObject -> string

    /** The digest generateSignature() computes from the current state. */
    function Signature(): string
      reads this
    {
      hash(HashInput(SignatureTokens(securityPacket, secret, requestString, signRequestData, action)))
    }

    /** What holds of every constructed Init object between calls. */
    ghost predicate Valid()
      reads this
    {
      && secret != ""
      && "timestamp" in securityPacket
      && (forall k :: k in securityPacket ==> IsSecurityKey(k) || k == "signature")
      && (service == Questions ==> "user_id" in securityPacket)
      && signRequestData
      && (requestPacket.None? ==> requestString == "")
      && ObjectSerialiser(ser)
      && "signature" in securityPacket && securityPacket["signature"] == Signature()
    }

    /** The field initialisers and the assignments of the validated arguments;
        service options and signature follow in Create and CreateWithRequest. */
    constructor (service: Service, secret: string, packet: map<string, string>,
                 request: Option<RequestData>, hash: string -> string, ser: JsonObject -> string)
      ensures this.service == service && this.secret == secret && securityPacket == packet
      ensures requestPacket == (if request.Some? then Some(request.value.packet) else None)
      ensures requestString == (if request.Some? then request.value.text else "")
      ensures action == "" && signRequestData
      ensures this.hash == hash && this.ser == ser
    {
      this.service := service;
      this.secret := secret;
      securityPacket := packet;
      requestPacket := if request.Some? then Some(request.value.packet) else None;
      requestString := if request.Some? then request.value.text else "";
      action := "";
      signRequestData := true;
      this.hash := hash;
      this.ser := ser;
    }

    /** Init(service, securityPacket, secret): validate, apply service options,
        store the signature under `signature`. */
    static method Create(service: Option<Service>, security: PacketInput, secret: Option<string>,
                         now: string, hash: string -> string, ser: JsonObject -> string)
      returns (r: Result<Init, InitError>)
      requires ObjectSerialiser(ser)
      ensures r.Success? <==> ArgsAccepted(service, security, secret)
      ensures r.Failure? ==> ArgsRejectedWith(service, security, secret, r.error)
      ensures r.Success? ==>
                var init, packet := r.value, WithTimestamp(security.fields, now);
                && fresh(init) && init.Valid()
                && init.service == service.value && init.secret == secret.value
                && init.securityPacket == packet["signature" := init.securityPacket["signature"]]
                && init.securityPacket["signature"]
                     == hash(HashInput(SignatureTokens(packet, secret.value, "", true, "")))
                && init.requestPacket == None && init.requestString == ""
                && init.action == "" && init.signRequestData
                && init.hash == hash && init.ser == ser
    {
      var args := ValidateRequiredArgs(service, security, secret, now);
      if args.Failure? {
        return Failure(args.error);
      }
      var init := new Init(args.value.service, args.value.secret, args.value.packet, None, hash, ser);
      init.SetServiceOptions();
      init.StoreSignature();
      r := Success(init);
    }

    /** Init(service, securityPacket, secret, requestPacket): as Create, with the
        request intake after the security checks; the stored request text takes
        part in the signature. */
    static method CreateWithRequest(service: Option<Service>, security: PacketInput,
                                    secret: Option<string>, request: RequestInput, now: string,
                                    hash: string -> string, ser: JsonObject -> string)
      returns (r: Result<Init, InitError>)
      requires ObjectSerialiser(ser)
      ensures !ArgsAccepted(service, security, secret) ==>
                r.Failure? && ArgsRejectedWith(service, security, secret, r.error)
      ensures ArgsAccepted(service, security, secret) ==>
                match request
                case NullRequest => r == Failure(MissingRequestPacket)
                case TextRequest(_, parsed) =>
                  if parsed.Some? then r.Success? else r == Failure(MalformedRequestPacket)
                case StructuredRequest(_) => r.Success?
      ensures r.Failure? ==> ArgsRejectedWith(service, security, secret, r.error)
                             || r.error == MissingRequestPacket || r.error == MalformedRequestPacket
      ensures r.Success? ==>
                var init, packet := r.value, WithTimestamp(security.fields, now);
                var text := if request.TextRequest? then request.text else ser(request.obj);
                && fresh(init) && init.Valid()
                && init.service == service.value && init.secret == secret.value
                && init.securityPacket == packet["signature" := init.securityPacket["signature"]]
                && init.securityPacket["signature"]
                     == hash(HashInput(SignatureTokens(packet, secret.value, text, true, "")))
                && init.requestPacket == Some(if request.TextRequest? then request.parsed.value else request.obj)
                && init.requestString == text
                && init.action == "" && init.signRequestData
                && init.hash == hash && init.ser == ser
    {
      var args := ValidateRequiredArgs(service, security, secret, now);
      if args.Failure? {
        return Failure(args.error);
      }
      var req := ValidateRequestPacket(request, ser);
      if req.Failure? {
        return Failure(req.error);
      }
      var init := new Init(args.value.service, args.value.secret, args.value.packet, Some(req.value), hash, ser);
      init.SetServiceOptions();
      init.StoreSignature();
      r := Success(init);
    }

    /** `securityPacket.put("signature", generateSignature())`, shared by the
        constructors and setAction. */
    method StoreSignature()
      requires secret != "" && "timestamp" in securityPacket && signRequestData
      requires forall k :: k in securityPacket ==> IsSecurityKey(k) || k == "signature"
      requires service == Questions ==> "user_id" in securityPacket
      requires requestPacket.None? ==> requestString == ""
      requires ObjectSerialiser(ser)
      modifies this`securityPacket
      ensures Valid()
      ensures securityPacket == old(securityPacket)["signature" := old(Signature())]
    {
      var signature := GenerateSignature();
      securityPacket := securityPacket["signature" := signature];
      SignatureIgnoresUnsignedKeys(old(securityPacket), "signature", signature,
                                   secret, requestString, signRequestData, action);
    }

    /** setAction: store the action and re-sign. The stored signature is left as
        it was when the action does not change. */
    method SetAction(action: string)
      requires Valid()
      modifies this`action, this`securityPacket
      ensures Valid()
      ensures this.action == action
      ensures securityPacket == old(securityPacket)["signature" := Signature()]
      ensures action == old(this.action) ==> securityPacket == old(securityPacket)
    {
      this.action := action;
      StoreSignature();
    }

    /** generateSignature: the digest of the "_"-joined token list: the packet's
        values in VALID_SECURITY_KEYS order, the secret, the request text when
        signed and non-empty, the action when non-empty. */
    method GenerateSignature() returns (signature: string)
      ensures signature == hash(HashInput(SignatureTokens(securityPacket, secret, requestString,
                                                         signRequestData, action)))
    {
      var signatureArray: seq<string> := [];
      var i := 0;
      while i < |SecurityKeys|
        invariant 0 <= i <= |SecurityKeys|
        invariant signatureArray == PresentValues(securityPacket, SecurityKeys[..i])
      {
        var key := SecurityKeys[i];
        assert SecurityKeys[..i + 1][..i] == SecurityKeys[..i];
        if key in securityPacket {
          signatureArray := signatureArray + [securityPacket[key]];
        }
        i := i + 1;
      }
      assert SecurityKeys[..i] == SecurityKeys;
      signatureArray := signatureArray + [secret];
      ghost var withSecret := signatureArray;
      if signRequestData && requestString != "" {
        signatureArray := signatureArray + [requestString];
      }
      ghost var withRequest := signatureArray;
      if action != "" {
        signatureArray := signatureArray + [action];
      }
      assert withRequest == withSecret + (if signRequestData && requestString != "" then [requestString] else []);
      assert signatureArray == withRequest + (if action != "" then [action] else []);
      signature := HashValue(signatureArray);
    }

    /** hashValue: the digest of the tokens joined with "_", where the
        accumulator test against "" makes leading empty tokens vanish. */
    method HashValue(value: seq<string>) returns (digest: string)
      ensures digest == hash(HashInput(value))
    {
      var valueString := "";
      var i := 0;
      while i < |value|
        invariant 0 <= i <= |value|
        invariant valueString == Join(DropLeadingEmpty(value[..i]))
        invariant valueString == "" <==> DropLeadingEmpty(value[..i]) == []
      {
        ghost var joined := DropLeadingEmpty(value[..i]);
        assert value[..i + 1] == value[..i] + [value[i]];
        DropLeadingEmptySnoc(value[..i], value[i]);
        JoinEmptyIff(joined);
        if valueString == "" {
          valueString := value[i];
        } else {
          JoinSnoc(joined, value[i]);
          valueString := valueString + "_" + value[i];
        }
        i := i + 1;
      }
      assert value[..i] == value;
      digest := hash(valueString);
    }

    /** setServiceOptions as written: every guard compares the enum `service`
        with a String literal, so no branch runs and no field changes. */
    method SetServiceOptions()
      modifies this`securityPacket, this`requestPacket, this`requestString, this`signRequestData
      ensures securityPacket == old(securityPacket) && requestPacket == old(requestPacket)
      ensures requestString == old(requestString) && signRequestData == old(signRequestData)
    {
      var s := EnumConstant(service);
      if JavaEquals(s, JavaString("assess")) || JavaEquals(s, JavaString("questions")) {
        // signRequestData := false and, for Assess, the questionsApiActivity signature
        assert false;
      } else if JavaEquals(s, JavaString("items")) {
        // copy user_id from the request packet into the security packet
        assert false;
      } else if JavaEquals(s, JavaString("events")) {
        // signRequestData := false and hashing of the request's `users`
        assert false;
      }
    }

    /** generate: the envelope text for the service. The switch has two
        groups of cases, modelled by the two methods below; the Questions case
        has no break and runs into the Events case. */
    method Generate() returns (outputString: string)
      requires ObjectSerialiser(ser) && "security" !in securityPacket
      ensures service == Data ==> outputString == ser(PacketFields(securityPacket))
      ensures service == Assess ==> outputString == requestString
      ensures service == Author || service == Items || service == Reports ==>
                outputString == RequestSplice(ser(EnvelopeObject(securityPacket, action)), requestString)
      ensures service == Questions ==>
                outputString == ConfigSplice(ser(QuestionsObject(securityPacket)), requestString)
      ensures service == Events ==>
                outputString == ConfigSplice(ser(EventsObject(securityPacket)), requestString)
    {
      if service == Questions || service == Events {
        outputString := GenerateFromRoot();
      } else {
        outputString := GenerateFromSecurity();
      }
    }

    /** The cases Assess, Author, Data, Items and Reports of generate. */
    method GenerateFromSecurity() returns (outputString: string)
      requires ObjectSerialiser(ser)
      requires service != Questions && service != Events
      ensures service == Data ==> outputString == ser(PacketFields(securityPacket))
      ensures service == Assess ==> outputString == requestString
      ensures service == Author || service == Items || service == Reports ==>
                outputString == RequestSplice(ser(EnvelopeObject(securityPacket, action)), requestString)
    {
      var output: JsonObject := map[];
      output := output["security" := Obj(PacketFields(securityPacket))];
      if action != "" {
        output := output["action" := Str(action)];
      }
      assert output == EnvelopeObject(securityPacket, action);
      if service == Data {
        return ser(output["security"].fields);
      } else if service == Assess {
        return requestString;
      }
      outputString := ser(output);
      ghost var text := outputString;
      assert ObjectText(text);
      if requestString == "" {
        outputString := outputString[..|outputString| - 1] + ",";
        outputString := outputString + "\"request\":" + requestString + "}";
      }
      assert outputString == RequestSplice(text, requestString);
    }

    /** The cases Questions and Events of generate: Questions builds its own
        root-level text, then falls into the Events code, which adds `security`
        to the same output object and recomputes the text from it. */
    method GenerateFromRoot() returns (outputString: string)
      requires ObjectSerialiser(ser) && "security" !in securityPacket
      requires service == Questions || service == Events
      ensures service == Questions ==>
                outputString == ConfigSplice(ser(QuestionsObject(securityPacket)), requestString)
      ensures service == Events ==>
                outputString == ConfigSplice(ser(EventsObject(securityPacket)), requestString)
    {
      var output: JsonObject := map[];
      outputString := "";
      if service == Questions {
        output := PacketFields(securityPacket);
        output := output - {"domain"};
        outputString := ser(output);
        assert ObjectText(outputString);
        if requestString != "" {
          outputString := outputString[..|outputString| - 1] + ",";
          outputString := outputString + requestString[1..];
        }
      }
      // case Events, reached from Questions too
      output := output["security" := Obj(PacketFields(securityPacket))];
      ghost var expected := if service == Questions then QuestionsObject(securityPacket)
                            else EventsObject(securityPacket);
      assert output == expected;
      outputString := ser(output);
      ghost var text := outputString;
      assert ObjectText(text);
      if requestString != "" {
        outputString := outputString[..|outputString| - 1] + ",";
        outputString := outputString + "\"config\":" + requestString + "}";
      }
      assert outputString == ConfigSplice(text, requestString);
    }
  }

  /** Data's envelope is the signed packet alone: it has no `action` or
      `request` member, whatever the action and request are. */
  lemma DataEnvelopeIsPacketOnly(init: Init)
    requires init.Valid()
    ensures var o := PacketFields(init.securityPacket);
            "action" !in o && "request" !in o && "signature" in o
            && o["signature"] == Str(init.Signature())
  {
  }
}
