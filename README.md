# Learnosity SDK request signing: a Dafny model of `Init`

This project models `com.learnosity.sdk.request.Init`, the class that builds
authenticated initialisation payloads for the Learnosity APIs. An `Init` object
is built from a service, a security packet (`consumer_key`, `domain`,
`timestamp`, `user_id`), a consumer secret and an optional request packet.
Construction validates the arguments, injects a timestamp, applies the
per-service options and stores a SHA-256 signature under `signature` in the
security packet. `setAction` re-signs. `generate` renders the envelope text for
the chosen service.

Modules:

- `Wrappers`: `Option` and `Result`. `None` stands for Java's `null`, and
  `Failure` for an exception that aborts construction.
- `Json`: JSON values, the security packet as a JSON object, the brace-delimited
  shape of `JSONObject.toString()`, and the "drop the last brace and append a
  member" text splice that `generate` uses.
- `Signing`: `VALID_SECURITY_KEYS`, the ordered pre-hash token list and the
  `_`-join that `hashValue` performs, with lemmas about both.
- `Validation`: the `Service` enum, the construction errors, and the three
  validation steps as methods that return what the constructor stores or the
  error it throws.
- `Request`: the class `Init` with its fields, invariant `Valid()`, two factory
  methods (one per Java constructor), `SetAction`, `GenerateSignature`,
  `HashValue`, `SetServiceOptions` and `Generate`.

SHA-256 (`DigestUtils.sha256Hex`) and JSON printing (`JSONObject.toString()`)
are collaborators. They are given to the factories as the function-valued
constants `hash` and `ser`. The only property assumed of `ser` is that its text
starts with `{` and ends with `}`. The clock is a parameter too: `now` is the
already formatted `yyyyMMdd-HHmm` string.

The model follows the code as written, including where the code does not do
what its comments intend:

- `setServiceOptions` compares the `Service` enum with `String` literals, and
  `Object.equals` between an enum constant and a String is always false.
  So no service option ever applies. `signRequestData` stays true for every
  service, and the request text is signed for Questions, Assess and Events too.
  The Assess `questionsApiActivity` signature, the Items `user_id` copy and the
  Events `users` hashing never happen.
- In `generate`, Author, Items and Reports splice `"request":` plus the request
  text only when the request text is empty. A non-empty request therefore never
  appears, and an empty one yields `…,"request":}`.
- In `generate`, the Questions case has no `break` and falls into the Events
  case. That case adds `security` to Questions' root-level copy of the packet
  and recomputes the text, which discards the Questions splice.

## Model

| member | source | states |
|---|---|---|
| `Validation.ValidateRequiredArgs` | src/main/java/com/learnosity/sdk/request/Init.java:365-377 | Checks run in this order: a null service, then a null or empty secret (a blank secret passes), then the security packet. Success exactly when all pass, storing the service, the secret and the validated packet. |
| `Validation.ValidateSecurityPacket` | src/main/java/com/learnosity/sdk/request/Init.java:410-449 | Null and unparsable inputs fail. Next comes the Questions `user_id` rule (checked before emptiness), then emptiness, then the loop rejecting a key outside the four valid keys (it names such a key). On success the packet is returned with the timestamp injected. |
| `Validation.WithTimestamp` | src/main/java/com/learnosity/sdk/request/Init.java:443-448 | The result always has `timestamp`. An existing timestamp and every other entry are kept. A missing timestamp becomes `now`. No other key is added. |
| `Validation.ArgsAcceptedOrRejected` | src/main/java/com/learnosity/sdk/request/Init.java:368-369 | Constructor arguments are accepted exactly when no construction error applies to them. |
| `Validation.ValidateRequestPacket` | src/main/java/com/learnosity/sdk/request/Init.java:383-404 | A String request keeps the caller's text verbatim as `requestString`. A structured request gets the printer's text. An unparsable or null request fails. |
| `Signing.PresentValues` | src/main/java/com/learnosity/sdk/request/Init.java:257-261 | Takes the values of the listed keys, in list order and only for the keys present. All present gives one value per key; none present gives nothing. |
| `Signing.PresentValuesFrame` | src/main/java/com/learnosity/sdk/request/Init.java:257-261 | Only the listed keys are read. Setting any other key leaves the values unchanged. |
| `Signing.SignatureIgnoresUnsignedKeys` | src/main/java/com/learnosity/sdk/request/Init.java:134 | The stored `signature` entry (any key outside VALID_SECURITY_KEYS) never changes the token list. |
| `Signing.FullPacketSigningString` | src/main/java/com/learnosity/sdk/request/Init.java:251-277 | With all four keys the tokens are exactly consumer_key, domain, timestamp, user_id, secret, then the signed request text, then the action. With a non-empty consumer key and neither request text nor action, the hashed string is `consumer_key_domain_timestamp_user_id_secret`. |
| `Signing.NonEmptyConsumerKeyJoinsAllTokens` | src/main/java/com/learnosity/sdk/request/Init.java:286-296 | With a non-empty consumer key, for any request text and action, the hashed string is the plain `_`-join of every token: nothing is dropped. |
| `Signing.PresentValuesFirst` | src/main/java/com/learnosity/sdk/request/Init.java:257-261 | When the first listed key is present, its value is the first value taken. |
| `Signing.ActionIsTrailingToken` | src/main/java/com/learnosity/sdk/request/Init.java:272-274 | The action only adds a trailing token, and only when it is non-empty. Everything before it is independent of it. |
| `Signing.ActionChangesSigningString` | src/main/java/com/learnosity/sdk/request/Init.java:167-173 | With a non-empty secret, different actions give different hashed strings. |
| `Signing.DropLeadingEmptySnoc` | src/main/java/com/learnosity/sdk/request/Init.java:288-295 | One more token extends the joined list by that token, unless everything so far is empty. This is how the accumulator of hashValue evolves. |
| `Signing.LeadingEmptyTokensVanish` | src/main/java/com/learnosity/sdk/request/Init.java:290-291 | Empty tokens before the first non-empty one contribute nothing to the hashed string, not even a separator. |
| `Signing.LaterEmptyTokensKept` | src/main/java/com/learnosity/sdk/request/Init.java:292-293 | After a non-empty token, an empty one still adds its `_` separator. |
| `Request.EnumNeverEqualsString` | src/main/java/com/learnosity/sdk/request/Init.java:304-341 | A Service constant never equals any String, so every guard of setServiceOptions is false. |
| `Request.EnvelopeObject` | src/main/java/com/learnosity/sdk/request/Init.java:193-199 | The output object always holds the packet under `security`. It holds `action` exactly when the action is non-empty, and nothing else. |
| `Request.QuestionsObject` | src/main/java/com/learnosity/sdk/request/Init.java:215-219 | The Questions output object holds the packet's own keys at the root, without `domain`, plus the packet under `security`. |
| `Request.EventsObject` | src/main/java/com/learnosity/sdk/request/Init.java:229-231 | The Events output object holds only `security`. |
| `Request.RequestSplice` | src/main/java/com/learnosity/sdk/request/Init.java:208-212 | A non-empty request text leaves the text untouched. An empty one closes it with `,"request":}`. |
| `Request.ConfigSplice` | src/main/java/com/learnosity/sdk/request/Init.java:234-238 | A `config` member holding the request text is appended exactly when that text is non-empty. |
| `Request.DataEnvelopeIsPacketOnly` | src/main/java/com/learnosity/sdk/request/Init.java:201-202 | The Data envelope object has no `action` or `request` member. It holds the current signature. |
| `Request.Init.constructor` | src/main/java/com/learnosity/sdk/request/Init.java:80-94 | Stores the validated arguments. The action starts empty, `signRequestData` starts true, and `requestString` is empty unless a request was given. |
| `Request.Init.Create` | src/main/java/com/learnosity/sdk/request/Init.java:125-135 | Succeeds exactly when the arguments are accepted, and otherwise fails with an admissible error. The new object is valid. Its packet is the validated one plus `signature`, the digest of keys, secret and nothing else. |
| `Request.Init.CreateWithRequest` | src/main/java/com/learnosity/sdk/request/Init.java:148-161 | Argument errors come first, then request errors: a null request gives `MissingRequestPacket` and an unparsable String gives `MalformedRequestPacket`. On success the stored request packet is the parsed or given object. The stored request text is signed, because `signRequestData` is true for every service. |
| `Request.Init.StoreSignature` | src/main/java/com/learnosity/sdk/request/Init.java:160 | Writes the digest of the state as it was under `signature` and establishes the object invariant. |
| `Request.Init.SetAction` | src/main/java/com/learnosity/sdk/request/Init.java:167-173 | Stores the action and re-signs, keeping the invariant. Setting the current action again leaves the packet unchanged. |
| `Request.Init.GenerateSignature` | src/main/java/com/learnosity/sdk/request/Init.java:251-277 | Returns the hash of the joined token list: present key values in fixed order, secret, signed non-empty request text, non-empty action. Nothing is modified, so repeated calls agree. |
| `Request.Init.HashValue` | src/main/java/com/learnosity/sdk/request/Init.java:286-297 | Returns the hash of the `_`-join of the tokens with leading empty tokens dropped. |
| `Request.Init.SetServiceOptions` | src/main/java/com/learnosity/sdk/request/Init.java:302-356 | No branch runs. The packets, the request text and `signRequestData` are unchanged. |
| `Request.Init.Generate` | src/main/java/com/learnosity/sdk/request/Init.java:181-241 | Data gives the serialised packet alone. Assess gives the request text verbatim. Author/Items/Reports give the envelope with the inverted request splice. Questions and Events give their final output object plus a `config` splice; Questions' own splice is discarded. |
| `Request.Init.GenerateFromSecurity` | src/main/java/com/learnosity/sdk/request/Init.java:187-213 | Data returns the packet's text with no action member. Assess returns the request text untouched. Author/Items/Reports return the security+action envelope, with `"request":` spliced only for an empty request text. |
| `Request.Init.GenerateFromRoot` | src/main/java/com/learnosity/sdk/request/Init.java:214-238 | Questions' own splice of the request fields is overwritten. Both services return the text of their final output object, plus `config` iff the request text is non-empty. |

## Left out

- SHA-256 and `JSONObject.toString()` are not modelled. They are the parameters `hash` and `ser`, and the key order of the printed JSON is not stated.
- JSON parsing and the conversion of a JSONObject, Map or Java bean argument are not modelled. The validators receive the conversion's outcome (`PacketInput`, `RequestInput`); for the JSONObject case the model takes the re-parse of its own text to give back the same object.
- The clock and `SimpleDateFormat` are not modelled: the formatted time is the parameter `now`.
- `!= ""` on Strings (Java reference comparison) is modelled as an emptiness test. The model does not capture a non-empty-looking String that is a distinct empty object.
- The `length() >= 0` request check cannot fail and has no error.
- Exception message texts are not modelled, only which error is raised.
- Packet values that are not strings are not modelled: security packet values are strings, so `getString` never throws.
- A null action passed to `setAction` is not modelled: the action is a string.
- The branch bodies of setServiceOptions are not modelled. These are the Assess `questionsApiActivity` signature, the Items `user_id` copy and the Events `users` hashing. The guards are modelled and proved false, and each branch is marked unreachable.
- Construction failure is modelled by factory methods returning `Result`, because a Dafny constructor cannot throw. Validation returns the packet to store rather than writing a field of a half-built object.
