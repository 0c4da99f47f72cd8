/**
 The Double Ratchet of `core/src/ratchet.rs`: the specification functions over a value state,
 and the class whose methods change that state in place and are proved against them.
 Fresh secrets, which the source draws from the operating system, are parameters.
 */
module Ratchet {
  import opened Results
  import opened KeySchedule

  const MAX_SKIP: nat := 1000
  const MAX_SKIPPED_CACHE: nat := 4000

  datatype Header = Header(dhPub: nat, pn: nat, n: nat)

  /** The two identities, initiator first, that every message is bound to. */
  datatype Prefix = Prefix(initiatorEd: nat, responderEd: nat)

  datatype AssociatedData = AssociatedData(prefix: Prefix, header: Header)

  type Packet = Ciphertext<Bytes, AssociatedData>

  /** A cache slot: remote ratchet key and message number. */
  type Slot = (nat, nat)

  datatype State = State(
    rootKey: Key,
    dhSelf: nat,
    dhRemote: Option<nat>,
    chainSend: Option<Key>,
    chainRecv: Option<Key>,
    nSend: nat,
    nRecv: nat,
    pn: nat,
    skipped: map<Slot, Key>)

  function InitInitiator(root: Key, remotePub: nat, drawn: nat): State {
    var (rootKey, chainSend) := KdfRk(root, Dh(drawn, remotePub));
    State(rootKey, drawn, Some(remotePub), Some(chainSend), None, 0, 0, 0, map[])
  }

  function InitResponder(root: Key, signedPrekey: nat): State {
    State(root, signedPrekey, None, None, None, 0, 0, 0, map[])
  }

  // ------------------------------------------------------------------ encrypt

  datatype Encryption = Encryption(after: State, result: Result<(Header, Packet)>)

  function Encrypt(r: State, text: Bytes, prefix: Prefix): Encryption {
    match r.chainSend
    case None => Encryption(r, Err(UnexpectedMessage))
    case Some(ck) =>
      var (next, mk) := KdfCk(ck);
      var header := Header(r.dhSelf, r.pn, r.nSend);
      Encryption(
        r.(chainSend := Some(next), nSend := r.nSend + 1),
        Ok((header, AeadSeal(mk, text, AssociatedData(prefix, header)))))
  }

  /** Encrypting fails exactly for want of a sending chain, and then changes nothing. */
  lemma {:induction false} EncryptsExactly(r: State, text: Bytes, prefix: Prefix)
    ensures Encrypt(r, text, prefix).result.Ok? <==> r.chainSend.Some?
    ensures r.chainSend.None? ==> Encrypt(r, text, prefix) == Encryption(r, Err(UnexpectedMessage))
  {
  }

  // ------------------------------------------------------------------ skipping

  /** The locals of the skip loop when it stops; `done` is false on the cache-full return. */
  datatype Loop = Loop(skipped: map<Slot, Key>, ck: Key, n: nat, done: bool)

  function SkipLoop(skipped: map<Slot, Key>, remote: nat, ck: Key, n: nat, until: nat): Loop
    requires n <= until
    decreases until - n
  {
    if n == until then Loop(skipped, ck, n, true)
    else if |skipped| >= MAX_SKIPPED_CACHE then Loop(skipped, ck, n, false)
    else
      var (next, mk) := KdfCk(ck);
      SkipLoop(skipped[(remote, n) := mk], remote, next, n + 1, until)
  }

  /** How a skip ended. Both `Refused` and `Torn` are the source's decryption error; a torn
      skip is the cache-full return after at least one key was cached. */
  datatype Ending = Completed | Refused | Torn

  datatype Skip = Skip(after: State, ending: Ending)

  function SkipMessageKeys(r: State, until: nat): Skip {
    if r.chainRecv.None? || until < r.nRecv then Skip(r, Completed)
    else if until - r.nRecv > MAX_SKIP || r.dhRemote.None? then Skip(r, Refused)
    else
      var loop := SkipLoop(r.skipped, r.dhRemote.value, r.chainRecv.value, r.nRecv, until);
      if loop.done then
        Skip(r.(skipped := loop.skipped, nRecv := loop.n, chainRecv := Some(loop.ck)), Completed)
      else
        Skip(r.(skipped := loop.skipped, nRecv := loop.n), if loop.n == r.nRecv then Refused else Torn)
  }

  // ------------------------------------------------------------------ decrypt

  function DhRatchet(r: State, remotePub: nat, drawn: nat): State {
    var (root1, chainRecv) := KdfRk(r.rootKey, Dh(r.dhSelf, remotePub));
    var (root2, chainSend) := KdfRk(root1, Dh(drawn, remotePub));
    r.(pn := r.nSend, nSend := 0, nRecv := 0, dhRemote := Some(remotePub),
       chainRecv := Some(chainRecv), dhSelf := drawn, rootKey := root2, chainSend := Some(chainSend))
  }

  /** Step 2 of decryption: follow the peer to a new ratchet key, if the header shows one. */
  function FollowHeader(r: State, header: Header, drawn: nat): Skip {
    if r.dhRemote == Some(header.dhPub) then Skip(r, Completed)
    else
      var skip := SkipMessageKeys(r, header.pn);
      if skip.ending != Completed then skip
      else Skip(DhRatchet(skip.after, header.dhPub, drawn), Completed)
  }

  /** Steps 2 and 3: the state in which the current chain stands at the header's number. */
  function Align(r: State, header: Header, drawn: nat): Skip {
    var followed := FollowHeader(r, header, drawn);
    if followed.ending != Completed then followed else SkipMessageKeys(followed.after, header.n)
  }

  /** One call of `decrypt`: `key` is the message key handed to `aead_open`, if any was. */
  datatype Attempt = Attempt(after: State, key: Option<Key>, result: Result<Bytes>, torn: bool)

  function Decrypt(r: State, header: Header, ct: Packet, prefix: Prefix, drawn: nat): Attempt {
    var ad := AssociatedData(prefix, header);
    var slot := (header.dhPub, header.n);
    if slot in r.skipped then
      var mk := r.skipped[slot];
      Attempt(r.(skipped := r.skipped - {slot}), Some(mk), AeadOpen(mk, ct, ad), false)
    else
      var aligned := Align(r, header, drawn);
      if aligned.ending != Completed then
        Attempt(aligned.after, None, Err(DecryptFailed), aligned.ending == Torn)
      else if aligned.after.chainRecv.None? then
        Attempt(aligned.after, None, Err(DecryptFailed), false)
      else
        var (next, mk) := KdfCk(aligned.after.chainRecv.value);
        Attempt(
          aligned.after.(chainRecv := Some(next), nRecv := aligned.after.nRecv + 1),
          Some(mk), AeadOpen(mk, ct, ad), false)
  }

  // ------------------------------------------------------------------ the class

  class DoubleRatchet {
    var rootKey: Key
    var dhSelf: nat
    var dhRemote: Option<nat>
    var chainSend: Option<Key>
    var chainRecv: Option<Key>
    var nSend: nat
    var nRecv: nat
    var pn: nat
    var skipped: map<Slot, Key>

    function Value(): State
      reads this
    {
      State(rootKey, dhSelf, dhRemote, chainSend, chainRecv, nSend, nRecv, pn, skipped)
    }

    constructor Initiator(root: Key, remotePub: nat, drawn: nat)
      ensures Value() == InitInitiator(root, remotePub, drawn)
    {
      dhSelf := drawn;
      var (nextRoot, chain) := KdfRk(root, Dh(drawn, remotePub));
      rootKey, chainSend := nextRoot, Some(chain);
      dhRemote, chainRecv := Some(remotePub), None;
      nSend, nRecv, pn, skipped := 0, 0, 0, map[];
    }

    constructor Responder(root: Key, signedPrekey: nat)
      ensures Value() == InitResponder(root, signedPrekey)
    {
      rootKey, dhSelf := root, signedPrekey;
      dhRemote, chainSend, chainRecv := None, None, None;
      nSend, nRecv, pn, skipped := 0, 0, 0, map[];
    }

    method EncryptMessage(text: Bytes, prefix: Prefix) returns (result: Result<(Header, Packet)>)
      modifies this
      ensures Encryption(Value(), result) == Encrypt(old(Value()), text, prefix)
    {
      if chainSend.None? {
        return Err(UnexpectedMessage);
      }
      var (next, mk) := KdfCk(chainSend.value);
      var header := Header(dhSelf, pn, nSend);
      chainSend := Some(next);
      nSend := nSend + 1;
      return Ok((header, AeadSeal(mk, text, AssociatedData(prefix, header))));
    }

    method DecryptMessage(header: Header, ct: Packet, prefix: Prefix, drawn: nat) returns (result: Result<Bytes>)
      modifies this
      ensures Value() == Decrypt(old(Value()), header, ct, prefix, drawn).after
      ensures result == Decrypt(old(Value()), header, ct, prefix, drawn).result
    {
      var ad := AssociatedData(prefix, header);
      var slot := (header.dhPub, header.n);
      if slot in skipped {
        var mk := skipped[slot];
        skipped := skipped - {slot};
        return AeadOpen(mk, ct, ad);
      }
      if dhRemote != Some(header.dhPub) {
        var ok := SkipTo(header.pn);
        if !ok {
          return Err(DecryptFailed);
        }
        RatchetTo(header.dhPub, drawn);
      }
      var ok := SkipTo(header.n);
      if !ok || chainRecv.None? {
        return Err(DecryptFailed);
      }
      var (next, mk) := KdfCk(chainRecv.value);
      chainRecv := Some(next);
      nRecv := nRecv + 1;
      return AeadOpen(mk, ct, ad);
    }

    /** The keys of the numbers below `until` go to the cache; false is the error return. */
    method SkipTo(until: nat) returns (ok: bool)
      modifies this`skipped, this`nRecv, this`chainRecv
      ensures Value() == SkipMessageKeys(old(Value()), until).after
      ensures ok <==> SkipMessageKeys(old(Value()), until).ending == Completed
    {
      if chainRecv.None? || until < nRecv {
        return true;
      }
      if until - nRecv > MAX_SKIP || dhRemote.None? {
        return false;
      }
      var remote, ck := dhRemote.value, chainRecv.value;
      ghost var whole := SkipLoop(skipped, remote, ck, nRecv, until);
      while nRecv < until
        modifies this`skipped, this`nRecv
        invariant old(nRecv) <= nRecv <= until
        invariant SkipLoop(skipped, remote, ck, nRecv, until) == whole
        invariant nRecv == old(nRecv) ==> skipped == old(skipped)
        decreases until - nRecv
      {
        var (next, mk) := KdfCk(ck);
        if |skipped| >= MAX_SKIPPED_CACHE {
          return false;
        }
        skipped := skipped[(remote, nRecv) := mk];
        ck := next;
        nRecv := nRecv + 1;
      }
      chainRecv := Some(ck);
      return true;
    }

    method RatchetTo(remotePub: nat, drawn: nat)
      modifies this
      ensures Value() == DhRatchet(old(Value()), remotePub, drawn)
    {
      pn := nSend;
      nSend := 0;
      nRecv := 0;
      dhRemote := Some(remotePub);
      var (root1, recv) := KdfRk(rootKey, Dh(dhSelf, remotePub));
      rootKey := root1;
      chainRecv := Some(recv);
      dhSelf := drawn;
      var (root2, send) := KdfRk(rootKey, Dh(dhSelf, remotePub));
      rootKey := root2;
      chainSend := Some(send);
    }
  }

  // ------------------------------------------------------------------ what a skip does

  /** `after` is `before` plus, for each number from `n` to `until`, the message key of the
      chain started by `base`. */
  ghost predicate Filled(before: map<Slot, Key>, after: map<Slot, Key>, remote: nat, base: Key, n: nat, until: nat) {
    && (forall x: nat, i: nat :: (x, i) in after <==> (x, i) in before || (x == remote && n <= i < until))
    && (forall x: nat, i: nat :: (x, i) in after ==>
          after[(x, i)] == if x == remote && n <= i < until then MessageKey(Advance(base, i)) else before[(x, i)])
  }

  /** With room in the cache and its slots free, a skip caches exactly the keys of the
      numbers passed over, each in its slot, and moves the chain to `until`. */
  lemma {:induction false} SkipLoopWithRoom(skipped: map<Slot, Key>, remote: nat, base: Key, n: nat, until: nat)
    requires n <= until
    requires |skipped| + (until - n) <= MAX_SKIPPED_CACHE
    requires forall i: nat :: n <= i < until ==> (remote, i) !in skipped
    ensures var loop := SkipLoop(skipped, remote, Advance(base, n), n, until);
            && loop == Loop(loop.skipped, Advance(base, until), until, true)
            && |loop.skipped| == |skipped| + (until - n)
            && Filled(skipped, loop.skipped, remote, base, n, until)
    decreases until - n
  {
    if n < until {
      var more := skipped[(remote, n) := MessageKey(Advance(base, n))];
      assert Advance(base, n + 1) == NextChain(Advance(base, n));
      SkipLoopWithRoom(more, remote, base, n + 1, until);
      var loop := SkipLoop(more, remote, Advance(base, n + 1), n + 1, until);
    }
  }

  /** Without room the loop stops early, and it stops before the first insertion exactly
      when the cache was full to begin with. */
  lemma {:induction false} SkipLoopWithoutRoom(skipped: map<Slot, Key>, remote: nat, ck: Key, n: nat, until: nat)
    requires n <= until
    requires |skipped| + (until - n) > MAX_SKIPPED_CACHE
    requires forall i :: n <= i < until ==> (remote, i) !in skipped
    requires |skipped| <= MAX_SKIPPED_CACHE
    ensures var loop := SkipLoop(skipped, remote, ck, n, until);
            !loop.done && n <= loop.n && (loop.n == n <==> |skipped| == MAX_SKIPPED_CACHE)
            && (loop.n == n ==> loop.skipped == skipped)
    decreases until - n
  {
    if |skipped| < MAX_SKIPPED_CACHE {
      SkipLoopWithoutRoom(skipped[(remote, n) := MessageKey(ck)], remote, NextChain(ck), n + 1, until);
    }
  }
}
