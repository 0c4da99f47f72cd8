/** One end of a conversation, `core/src/session.rs`: handshake, ratchet and pending header. */
module Session {
  import opened Results
  import opened Ratchet
  import opened Identity
  import opened Handshake

  datatype Message =
    | PreKey(handshake: HandshakeHeader, header: Header, ct: Packet)
    | Normal(header: Header, ct: Packet)

  datatype SessionState = SessionState(ratchet: State, prefix: Prefix, pending: Option<HandshakeHeader>)

  function InitiateSession(me: AccountState, b: Bundle, ephemeral: nat, coins: nat, drawn: nat): Result<SessionState> {
    var verified := VerifyBundle(b);
    if verified.Err? then Err(verified.error)
    else
      var init := Initiate(me, b, ephemeral, coins);
      Ok(SessionState(InitInitiator(init.root, init.remotePrekey, drawn),
                      Prefix(init.header.identityEd, b.identityEd), Some(init.header)))
  }

  /** The account changes even when a later step fails. */
  function RespondSession(me: AccountState, first: Message, drawn: nat): (AccountState, Result<(SessionState, Bytes)>) {
    match first
    case Normal(_, _) => (me, Err(UnexpectedMessage))
    case PreKey(hs, header, ct) =>
      var (after, root) := Respond(me, hs);
      if root.Err? then (after, Err(root.error))
      else
        var prefix := Prefix(hs.identityEd, me.ed);
        var att := Decrypt(InitResponder(root.value, me.signedPrekey), header, ct, prefix, drawn);
        if att.result.Err? then (after, Err(att.result.error))
        else (after, Ok((SessionState(att.after, prefix, None), att.result.value)))
  }

  function EncryptSession(s: SessionState, text: Bytes): (SessionState, Result<Message>) {
    var enc := Encrypt(s.ratchet, text, s.prefix);
    if enc.result.Err? then (s.(ratchet := enc.after), Err(enc.result.error))
    else
      var (header, ct) := enc.result.value;
      (s.(ratchet := enc.after),
       Ok(if s.pending.Some? then PreKey(s.pending.value, header, ct) else Normal(header, ct)))
  }

  function DecryptSession(s: SessionState, m: Message, drawn: nat): (SessionState, Result<Bytes>) {
    var att := Decrypt(s.ratchet, m.header, m.ct, s.prefix, drawn);
    (s.(ratchet := att.after, pending := if att.result.Ok? then None else s.pending), att.result)
  }

  /** A session is opened exactly if each of the bundle's keys carries the identity's signature for that
      key and purpose, and then from the bundle's keys. */
  lemma {:induction false} InitiatesExactly(me: AccountState, b: Bundle, ephemeral: nat, coins: nat, drawn: nat)
    ensures var r := InitiateSession(me, b, ephemeral, coins, drawn);
            if forall k :: k in SignedKeys(b) ==> k.2 == Signature(b.identityEd, k.0, k.1) then
              && r.Ok? && r.value.prefix == Prefix(me.ed, b.identityEd)
              && r.value.pending == Some(Initiate(me, b, ephemeral, coins).header)
              && r.value.ratchet == InitInitiator(Initiate(me, b, ephemeral, coins).root, b.signedPrekey, drawn)
            else r == Err(BadSignature)
  {
    VerifiesExactly(b);
  }

  /** Whatever a relay hands out under `bob`'s identity, as long as it holds no signature of his but those
      in his bundles: a session that opens starts from his keys, so it has the root key he derives. */
  lemma {:induction false} OnlyOwnKeysOpen(me: AccountState, bob: AccountState, b: Bundle, ephemeral: nat, coins: nat,
                                           drawn: nat)
    requires b.identityEd == bob.ed && InitiateSession(me, b, ephemeral, coins, drawn).Ok?
    requires forall k :: k in SignedKeys(b) && k.2.Signature? && k.2.signer == bob.ed ==>
               exists own :: own in SignedKeys(BundleWith(bob, None)) && k.2 == own.2
    requires b.signedPrekeyId == bob.signedPrekeyId && b.kyberPrekeyId == bob.kyberPrekeyId
    requires b.oneTimePrekeyId.Some? <==> b.oneTimePrekey.Some?
    requires b.oneTimePrekeyId.Some? ==>
               b.oneTimePrekeyId.value in bob.oneTime && bob.oneTime[b.oneTimePrekeyId.value] == b.oneTimePrekey.value
    ensures Respond(bob, Initiate(me, b, ephemeral, coins).header).1 == Ok(Initiate(me, b, ephemeral, coins).root)
  {
    NoKeyIsSubstituted(bob, b);
    var oneTime := if b.oneTimePrekey.None? then None else Some((b.oneTimePrekeyId.value, b.oneTimePrekey.value));
    HandshakeAgrees(me, bob, bob, oneTime, ephemeral, coins);
    assert Initiate(me, b, ephemeral, coins) == Initiate(me, BundleWith(bob, oneTime), ephemeral, coins);
  }

  /** Only a prekey message starts a session, and one that does not is refused without a trace. */
  lemma {:induction false} OnlyPreKeyStarts(me: AccountState, first: Message, drawn: nat)
    ensures first.Normal? ==> RespondSession(me, first, drawn) == (me, Err(UnexpectedMessage))
    ensures RespondSession(me, first, drawn).1.Ok? ==> first.PreKey? && Respond(me, first.handshake).1.Ok?
  {
  }

  class Session {
    const ratchet: DoubleRatchet
    var prefix: Prefix
    var pending: Option<HandshakeHeader>

    function Value(): SessionState
      reads this, ratchet
    {
      SessionState(ratchet.Value(), prefix, pending)
    }

    constructor (ratchet: DoubleRatchet, prefix: Prefix, pending: Option<HandshakeHeader>)
      ensures this.ratchet == ratchet && Value() == SessionState(ratchet.Value(), prefix, pending)
    {
      this.ratchet, this.prefix, this.pending := ratchet, prefix, pending;
    }

    static method InitiateWith(me: Account, b: Bundle, ephemeral: nat, coins: nat, drawn: nat)
      returns (r: Result<Session>)
      ensures r.Ok? ==> fresh(r.value) && fresh(r.value.ratchet)
      ensures (if r.Ok? then Ok(r.value.Value()) else Err(r.error)) ==
              InitiateSession(me.Value(), b, ephemeral, coins, drawn)
    {
      var verified := VerifyBundle(b);
      if verified.Err? {
        return Err(verified.error);
      }
      var init := Initiate(me.Value(), b, ephemeral, coins);
      var ratchet := new DoubleRatchet.Initiator(init.root, init.remotePrekey, drawn);
      var session := new Session(ratchet, Prefix(init.header.identityEd, b.identityEd), Some(init.header));
      return Ok(session);
    }

    static method RespondTo(me: Account, first: Message, drawn: nat) returns (r: Result<(Session, Bytes)>)
      modifies me`oneTime
      ensures r.Ok? ==> fresh(r.value.0) && fresh(r.value.0.ratchet)
      ensures (me.Value(), if r.Ok? then Ok((r.value.0.Value(), r.value.1)) else Err(r.error)) ==
              RespondSession(old(me.Value()), first, drawn)
    {
      if first.Normal? {
        return Err(UnexpectedMessage);
      }
      var root := RespondToHandshake(me, first.handshake);
      if root.Err? {
        return Err(root.error);
      }
      var prefix := Prefix(first.handshake.identityEd, me.ed);
      var ratchet := new DoubleRatchet.Responder(root.value, me.signedPrekey);
      var text := ratchet.DecryptMessage(first.header, first.ct, prefix, drawn);
      if text.Err? {
        return Err(text.error);
      }
      var session := new Session(ratchet, prefix, None);
      return Ok((session, text.value));
    }

    method EncryptText(text: Bytes) returns (r: Result<Message>)
      modifies ratchet
      ensures (Value(), r) == EncryptSession(old(Value()), text)
    {
      var sealed := ratchet.EncryptMessage(text, prefix);
      if sealed.Err? {
        return Err(sealed.error);
      }
      var (header, ct) := sealed.value;
      return Ok(if pending.Some? then PreKey(pending.value, header, ct) else Normal(header, ct));
    }

    method DecryptText(m: Message, drawn: nat) returns (r: Result<Bytes>)
      modifies this`pending, ratchet
      ensures (Value(), r) == DecryptSession(old(Value()), m, drawn)
    {
      r := ratchet.DecryptMessage(m.header, m.ct, prefix, drawn);
      if r.Ok? {
        pending := None;
      }
    }
  }
}
