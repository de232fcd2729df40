/** The signing string: which values are hashed, in which order, and how
    hashValue() joins them before the digest is taken. */
module Signing {

  /** VALID_SECURITY_KEYS: the only keys a security packet may carry, in the
      order their values enter the signature. */
  const SecurityKeys: seq<string> := ["consumer_key", "domain", "timestamp", "user_id"]

  /** The values of the `keys` that `packet` holds, in the order of `keys`. */
  function PresentValues(packet: map<string, string>, keys: seq<string>): (r: seq<string>)
    ensures |r| <= |keys|
    ensures (forall k :: k in keys ==> k in packet) ==>
              |r| == |keys| && forall i :: 0 <= i < |keys| ==> r[i] == packet[keys[i]]
    ensures (forall k :: k in keys ==> k !in packet) ==> r == []
  {
    if keys == [] then []
    else
      var init, last := keys[..|keys| - 1], keys[|keys| - 1];
      assert forall k :: k in init ==> k in keys;
      PresentValues(packet, init) + (if last in packet then [packet[last]] else [])
  }

  /** The pre-hash token list of generateSignature(): the packet's values in
      key order, the secret, the request text when it is signed and not empty,
      and the action when it is not empty. */
  function SignatureTokens(packet: map<string, string>, secret: string, requestString: string,
                           signRequestData: bool, action: string): seq<string>
  {
    PresentValues(packet, SecurityKeys) + [secret]
    + (if signRequestData && requestString != "" then [requestString] else [])
    + (if action != "" then [action] else [])
  }

  /** `tokens` without the empty strings in front of its first non-empty one. */
  function DropLeadingEmpty(tokens: seq<string>): (r: seq<string>)
    ensures r == [] || r[0] != ""
  {
    if tokens == [] then []
    else if tokens[0] == "" then DropLeadingEmpty(tokens[1..])
    else tokens
  }

  /** The tokens joined with "_" between neighbours. */
  function Join(tokens: seq<string>): string
  {
    if |tokens| == 0 then ""
    else if |tokens| == 1 then tokens[0]
    else Join(tokens[..|tokens| - 1]) + "_" + tokens[|tokens| - 1]
  }

  /** The string hashValue() digests for `tokens`. */
  function HashInput(tokens: seq<string>): string
  {
    Join(DropLeadingEmpty(tokens))
  }

  /** Appending one token to the list extends the dropped-prefix form by that
      token, unless everything so far (and possibly the token) is empty. */
  lemma {:induction false} DropLeadingEmptySnoc(tokens: seq<string>, t: string)
    ensures DropLeadingEmpty(tokens + [t]) ==
              if DropLeadingEmpty(tokens) == [] then (if t == "" then [] else [t])
              else DropLeadingEmpty(tokens) + [t]
  {
    if tokens == [] {
      assert tokens + [t] == [t];
    } else if tokens[0] == "" {
      assert (tokens + [t])[1..] == tokens[1..] + [t];
      DropLeadingEmptySnoc(tokens[1..], t);
    }
  }

  /** A joined list whose first token is not empty is empty only when the list is. */
  lemma JoinEmptyIff(tokens: seq<string>)
    requires tokens == [] || tokens[0] != ""
    ensures Join(tokens) == "" <==> tokens == []
  {
  }

  /** Joining one more token after a non-empty list adds a separator and the token. */
  lemma JoinSnoc(tokens: seq<string>, t: string)
    requires tokens != []
    ensures Join(tokens + [t]) == Join(tokens) + "_" + t
  {
    assert (tokens + [t])[..|tokens|] == tokens;
  }

  /** Empty tokens before the first non-empty one contribute nothing to the
      hashed string; not even a separator. */
  lemma {:induction false} LeadingEmptyTokensVanish(empties: seq<string>, rest: seq<string>)
    requires forall i :: 0 <= i < |empties| ==> empties[i] == ""
    ensures HashInput(empties + rest) == HashInput(rest)
  {
    if empties != [] {
      assert (empties + rest)[1..] == empties[1..] + rest;
      LeadingEmptyTokensVanish(empties[1..], rest);
    } else {
      assert empties + rest == rest;
    }
  }

  /** Once a non-empty token has been seen, every later token is joined with
      its separator, empty or not. */
  lemma {:induction false} LaterEmptyTokensKept(tokens: seq<string>)
    requires tokens != [] && tokens[0] != ""
    ensures HashInput(tokens + [""]) == HashInput(tokens) + "_"
  {
    DropLeadingEmptySnoc(tokens, "");
  }

  /** Only the keys in `keys` are read: any other key of the packet may be
      set to anything without changing the values taken. */
  lemma {:induction false} PresentValuesFrame(packet: map<string, string>, keys: seq<string>,
                                              k: string, v: string)
    requires k !in keys
    ensures PresentValues(packet[k := v], keys) == PresentValues(packet, keys)
  {
    if keys != [] {
      PresentValuesFrame(packet, keys[..|keys| - 1], k, v);
    }
  }

  /** The `signature` key that construction writes into the packet is never
      read back when signing: a key outside VALID_SECURITY_KEYS does not alter
      the token list. */
  lemma SignatureIgnoresUnsignedKeys(packet: map<string, string>, k: string, v: string,
                                     secret: string, requestString: string,
                                     signRequestData: bool, action: string)
    requires k !in SecurityKeys
    ensures SignatureTokens(packet[k := v], secret, requestString, signRequestData, action)
         == SignatureTokens(packet, secret, requestString, signRequestData, action)
  {
    PresentValuesFrame(packet, SecurityKeys, k, v);
  }

  /** The action is the trailing token when it is not empty and absent
      otherwise; everything before it does not depend on it. */
  lemma ActionIsTrailingToken(packet: map<string, string>, secret: string, requestString: string,
                              signRequestData: bool, action: string)
    ensures var base := SignatureTokens(packet, secret, requestString, signRequestData, "");
            SignatureTokens(packet, secret, requestString, signRequestData, action)
              == if action == "" then base else base + [action]
  {
  }

  /** With a non-empty secret, two different actions always give two different
      hashed strings, so setAction with a new action changes what is signed. */
  lemma ActionChangesSigningString(packet: map<string, string>, secret: string, requestString: string,
                                   signRequestData: bool, action: string, action': string)
    requires secret != "" && action != action'
    ensures HashInput(SignatureTokens(packet, secret, requestString, signRequestData, action))
         != HashInput(SignatureTokens(packet, secret, requestString, signRequestData, action'))
  {
    var base := SignatureTokens(packet, secret, requestString, signRequestData, "");
    var prefix := PresentValues(packet, SecurityKeys);
    var tail := if signRequestData && requestString != "" then [requestString] else [];
    assert base == (prefix + [secret]) + tail;
    DropLeadingEmptySnoc(prefix, secret);
    var kept := DropLeadingEmpty(prefix + [secret]);
    assert kept != [];
    if tail != [] {
      assert base == (prefix + [secret]) + [requestString];
      DropLeadingEmptySnoc(prefix + [secret], requestString);
    } else {
      assert base == prefix + [secret];
    }
    assert DropLeadingEmpty(base) != [];
    forall a | a != ""
      ensures HashInput(base + [a]) == HashInput(base) + "_" + a
    {
      DropLeadingEmptySnoc(base, a);
      JoinSnoc(DropLeadingEmpty(base), a);
    }
    ActionIsTrailingToken(packet, secret, requestString, signRequestData, action);
    ActionIsTrailingToken(packet, secret, requestString, signRequestData, action');
    var h, h' := HashInput(base + [action]), HashInput(base + [action']);
    if action != "" && action' != "" {
      assert h[|HashInput(base)| + 1..] == action;
      assert h'[|HashInput(base)| + 1..] == action';
    }
  }

  /** When the first listed key is present, its value comes first. */
  lemma {:induction false} PresentValuesFirst(packet: map<string, string>, keys: seq<string>)
    requires keys != [] && keys[0] in packet
    ensures var r := PresentValues(packet, keys); r != [] && r[0] == packet[keys[0]]
  {
    if |keys| > 1 {
      var init := keys[..|keys| - 1];
      PresentValuesFirst(packet, init);
    }
  }

  /** A non-empty consumer key is the first token, so nothing is dropped: the
      hashed string is the plain "_"-join of every token, whatever the other
      values, the request text and the action are. */
  lemma NonEmptyConsumerKeyJoinsAllTokens(packet: map<string, string>, secret: string,
                                          requestString: string, signRequestData: bool, action: string)
    requires "consumer_key" in packet && packet["consumer_key"] != ""
    ensures var tokens := SignatureTokens(packet, secret, requestString, signRequestData, action);
            HashInput(tokens) == Join(tokens)
  {
    PresentValuesFirst(packet, SecurityKeys);
    var tokens := SignatureTokens(packet, secret, requestString, signRequestData, action);
    assert tokens[0] == packet["consumer_key"];
  }

  /** With all four keys present the tokens are exactly consumer_key, domain,
      timestamp, user_id, secret, then the signed request text, then the action.
      With a non-empty consumer key and neither request text nor action, the
      hashed string is consumer_key_domain_timestamp_user_id_secret. */
  lemma FullPacketSigningString(packet: map<string, string>, secret: string, requestString: string,
                                signRequestData: bool, action: string)
    requires forall k :: k in SecurityKeys ==> k in packet
    ensures var tail := (if signRequestData && requestString != "" then [requestString] else [])
                        + (if action != "" then [action] else []);
            SignatureTokens(packet, secret, requestString, signRequestData, action)
              == [packet["consumer_key"], packet["domain"], packet["timestamp"], packet["user_id"], secret] + tail
    ensures packet["consumer_key"] != "" ==>
              HashInput(SignatureTokens(packet, secret, "", signRequestData, ""))
                == packet["consumer_key"] + "_" + packet["domain"] + "_" + packet["timestamp"] + "_"
                   + packet["user_id"] + "_" + secret
  {
    var values := PresentValues(packet, SecurityKeys);
    assert values == [packet["consumer_key"], packet["domain"], packet["timestamp"], packet["user_id"]];
    var tokens := SignatureTokens(packet, secret, "", signRequestData, "");
    assert tokens == values + [secret];
    if packet["consumer_key"] != "" {
      var ck, d, ts, u := packet["consumer_key"], packet["domain"], packet["timestamp"], packet["user_id"];
      assert DropLeadingEmpty(tokens) == tokens;
      assert Join([ck, d]) == ck + "_" + d by { assert [ck, d][..1] == [ck]; }
      assert Join([ck, d, ts]) == ck + "_" + d + "_" + ts by { assert [ck, d, ts][..2] == [ck, d]; }
      assert Join([ck, d, ts, u]) == ck + "_" + d + "_" + ts + "_" + u by { assert [ck, d, ts, u][..3] == [ck, d, ts]; }
      assert tokens[..4] == [ck, d, ts, u];
    }
  }
}
