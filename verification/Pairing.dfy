/** Pairing two instances over a network that may drop, repeat, reorder and invent messages. */
module Pairing {
  import opened Wrappers
  import opened Handshake
  import PathPolicy

  // ----- Symbolic cryptography -----

  /** What the receiver seals for the initiator. */
  datatype Payload = Payload(
    sshPublicKey: string, instance: string, storageLimitBytes: int, allowedPathPrefix: string, reciprocalAccepted: bool)

  /** Keys and ciphertexts as they travel, in base64; signatures are of transcripts. */
  datatype Crypto = Crypto(
    pub: string -> string, dh: (string, string) -> string, hkdf: (string, string, string) -> string,
    seal: (Payload, string, string) -> string, unseal: (string, string, string) -> Option<Payload>,
    sign: (string, string) -> string, verify: (string, string, string) -> bool,
    requestText: Request -> string, callbackText: Callback -> string)
  {
    /** What is signed is the transcript of the body. */
    ghost predicate WritesRequest(b: Request) {
      OfferLimit(b.reciprocalOffer) >= 0 ==> requestText(b) == RequestTranscript(b)
    }

    ghost predicate WritesCallback(b: Callback) { callbackText(b) == CallbackTranscript(b) }

    /** Both sides compute one secret (section 6.1 of RFC 7748). */
    ghost predicate Agrees(a: string, b: string) { dh(a, pub(b)) == dh(b, pub(a)) }

    ghost predicate Derives(s: string, t: string, l: string, s': string, t': string, l': string) {
      hkdf(s, t, l) == hkdf(s', t', l') ==> s == s' && t == t' && l == l'
    }

    /** A box opens with its own key, and with no other. */
    ghost predicate Opens(p: Payload, n: string, k: string, n': string, k': string) {
      && unseal(seal(p, n, k), n, k) == Some(p)
      && (unseal(seal(p, n, k), n', k').Some? ==> k == k' && unseal(seal(p, n, k), n', k') == Some(p))
    }

    /** A signature made with the secret key of an identity verifies under its public key. */
    ghost predicate Verifies(who: Identity, text: string) { verify(text, sign(who.secretKey, text), who.publicKey) }

    ghost predicate KeyPair(who: Identity) { forall text :: Verifies(who, text) }

    ghost predicate Ideal() {
      && (forall a, b :: Agrees(a, b))
      && (forall s, t, l, s', t', l' :: Derives(s, t, l, s', t', l'))
      && (forall p, n, k, n', k' :: Opens(p, n, k, n', k'))
      && (forall b :: WritesRequest(b)) && (forall b :: WritesCallback(b))
    }
  }

  datatype Keys = Keys(apiKey: string, reverseApiKey: string, encryptionKey: string)

  function DeriveKeys(c: Crypto, shared: string, token: string): Keys {
    Keys(c.hkdf(shared, token, "redman-api-key-v2"),
         c.hkdf(shared, token, "redman-api-key-reverse-v1"),
         c.hkdf(shared, token, "redman-payload-key-v2"))
  }

  /** Equal encryption keys come from one secret and one token, so every key is equal. */
  lemma KeysAgree(c: Crypto, s: string, t: string, s': string, t': string)
    requires c.Ideal() && DeriveKeys(c, s, t).encryptionKey == DeriveKeys(c, s', t').encryptionKey
    ensures s == s' && t == t' && DeriveKeys(c, s, t) == DeriveKeys(c, s', t')
  {
    assert c.Derives(s, t, "redman-payload-key-v2", s', t', "redman-payload-key-v2");
  }

  /** A long-term identity. */
  datatype Identity = Identity(publicKey: string, secretKey: string)

  // ----- The two databases, and what has happened -----

  datatype Status = Pending | Accepting | Accepted | Failed | Declined | Expired

  datatype OutRow = OutRow(token: string, status: Status, secret: Option<string>, offer: Option<Offer>)
  datatype InRow = InRow(request: Request, status: Status)

  /** A pairing the initiator started; outgoing row `i` was made for issue `i`. */
  datatype Issue = Issue(token: string, secret: string, offer: Option<Offer>, request: Request)

  /** A callback the receiver made, for its row `row`. */
  datatype Acceptance = Acceptance(row: nat, request: Request, secret: string, payload: Payload, keys: Keys,
      callback: Callback)

  datatype Access = Access(key: string, path: string, limit: int)

  /** A callback the initiator accepted, and the reverse access it granted on the way. */
  datatype Completion = Completion(row: nat, callback: Callback, keys: Keys, payload: Payload, granted: Option<Access>)

  /** The space the receiver now believes it has, from one acceptance. */
  datatype Destination = Destination(acceptance: nat, access: Access)

  datatype State = State(
    outgoing: map<nat, OutRow>, incoming: map<nat, InRow>, nextIncoming: nat,
    issued: seq<Issue>, accepts: seq<Acceptance>, completions: seq<Completion>, destinations: seq<Destination>,
    posts: set<nat>,    // outgoing rows whose request is still under way
    calls: set<nat>)    // acceptances whose callback is still under way

  datatype Event =
    | Initiate(instance: string, token: string, sshKey: Option<string>, callbackUrl: string, secret: string,
      path: string, limit: int, offers: bool)
    | PostEnds(row: nat, ok: bool)
    | Receive(body: Request, room: bool)
    | Accept(row: nat, reciprocal: bool, secret: string, nonce: string, payload: Payload, keyRestricted: bool)
    | AcceptEnds(index: nat, ok: bool)
    | Decline(row: nat)
    | Deliver(row: nat, callback: Callback, expired: bool, keyRestricted: bool)
    | ExpireRows(outRows: set<nat>, inRows: set<nat>)
    | DeleteRows(outRows: set<nat>, inRows: set<nat>)

  /** Who is pairing, and what the initiator's policy makes of an offer of space. */
  datatype Parties = Parties(initiator: Identity, receiver: Identity, access: (string, int) -> Option<(string, int)>) {
    ghost predicate Stable(path: string, limit: int) {
      access(path, limit).Some? ==>
        var (p, l) := access(path, limit).value;
        p != "" && l > 0 && access(p, l) == Some((p, l))
    }

    ghost predicate Sound() { forall path, limit :: Stable(path, limit) }
  }

  /** The policy both sides really use. */
  lemma PairingAccessIsSound(who: Parties)
    requires who.access == PathPolicy.ValidatePairingAccess
    ensures who.Sound()
  {
    forall path, limit ensures who.Stable(path, limit) {
      if PathPolicy.ValidatePairingAccess(path, limit).Some? { PathPolicy.AccessIsStable(path, limit); }
    }
  }

  // ----- The initiator's steps -----

  function Unsigned(who: Parties, c: Crypto, e: Event): Request
    requires e.Initiate?
  {
    Request(VERSION, "initiator", e.instance, e.token, e.callbackUrl, e.sshKey, c.pub(e.secret),
            who.initiator.publicKey,
            StartedOffer(who, e), "")
  }

  /** The offer as normalised before it is signed and stored. */
  function StartedOffer(who: Parties, e: Event): Option<Offer>
    requires e.Initiate?
  {
    var access := who.access(e.path, e.limit);
    if e.offers && access.Some? then Some(Offer(access.value.0, access.value.1)) else None
  }

  function Started(who: Parties, c: Crypto, e: Event): Issue
    requires e.Initiate?
  {
    var body := Unsigned(who, c, e);
    Issue(e.token, e.secret, StartedOffer(who, e),
      body.(signature := c.sign(who.initiator.secretKey, c.requestText(body))))
  }

  /** processCallback: the keys and payload of a callback that passes every check. */
  function ProcessCallback(who: Parties, c: Crypto, cb: Callback, secret: string, token: string)
    : Option<(Keys, Payload)>
  {
    if ValidateCallbackEnvelope(cb).Some? || cb.token != token || cb.requestStaticPubkey != who.initiator.publicKey
       || !c.verify(c.callbackText(cb), cb.signature, cb.staticPubkey) then None
    else
      var keys := DeriveKeys(c, c.dh(secret, cb.ephemeralPubkey), token);
      var payload := c.unseal(cb.encryptedPayload, cb.nonce, keys.encryptionKey);
      if payload.None? then None else Some((keys, payload.value))
  }

  function SetOut(s: State, row: nat, status: Status): State {
    if row in s.outgoing then s.(outgoing := s.outgoing[row := s.outgoing[row].(status := status)]) else s
  }

  /** The sealed payload takes up the offer stored with the row. */
  predicate TakenUp(row: OutRow, payload: Payload) {
    payload.reciprocalAccepted && row.offer.Some? && row.offer.value.storageLimitBytes > 0
  }

  /** grantReciprocalAccess: what the policy makes of the stored offer now; None where it refuses. */
  function Grant(who: Parties, row: OutRow, payload: Payload, reverseKey: string): Option<Access> {
    if !TakenUp(row, payload) then None
    else
      var access := who.access(row.offer.value.allowedPathPrefix, row.offer.value.storageLimitBytes);
      if access.None? then None else Some(Access(reverseKey, access.value.0, access.value.1))
  }

  /** handlePairingCallback. */
  function HandleCallback(who: Parties, c: Crypto, s: State, id: nat, cb: Callback, expired: bool,
                          keyRestricted: bool): State
    requires id in s.outgoing
  {
    var row := s.outgoing[id];
    if row.status != Pending || expired || row.secret.None? then s
    else
      var result := ProcessCallback(who, c, cb, row.secret.value, row.token);
      if result.None? then SetOut(s, id, Failed)
      else
        var (keys, payload) := result.value;
        var granted := Grant(who, row, payload, keys.reverseApiKey);
        if TakenUp(row, payload) && (granted.None? || !keyRestricted)
        then SetOut(s, id, Failed)
        else s.(outgoing := s.outgoing[id := row.(status := Accepted, secret := None)],
                completions := s.completions + [Completion(id, cb, keys, payload, granted)])
  }

  // ----- The receiver's steps -----

  function SetIn(s: State, row: nat, status: Status): State {
    if row in s.incoming then s.(incoming := s.incoming[row := s.incoming[row].(status := status)]) else s
  }

  predicate TokenStored(s: State, token: string) {
    exists id :: id in s.incoming && s.incoming[id].request.token == token
  }

  function ReceiveRequest(c: Crypto, s: State, body: Request, room: bool): State {
    if ValidateRequestEnvelope(body).Some? then s
    else
      ValidIsDetermined(body);
      if !c.verify(c.requestText(body), body.signature, body.staticPubkey) || TokenStored(s, body.token) || !room then s
      else s.(incoming := s.incoming[s.nextIncoming := InRow(body, Pending)], nextIncoming := s.nextIncoming + 1)
  }

  function UnsignedCallback(who: Parties, c: Crypto, request: Request, secret: string, nonce: string,
                            sealed: string): Callback
  {
    Callback(VERSION, "receiver", request.token, request.staticPubkey, c.pub(secret), who.receiver.publicKey, sealed,
      nonce, "")
  }

  function PrepareCallback(who: Parties, c: Crypto, row: nat, request: Request, secret: string, nonce: string,
                           payload: Payload): Acceptance
  {
    var keys := DeriveKeys(c, c.dh(secret, request.ephemeralPubkey), request.token);
    var body := UnsignedCallback(who, c, request, secret, nonce, c.seal(payload, nonce, keys.encryptionKey));
    Acceptance(row, request, secret, payload, keys,
               body.(signature := c.sign(who.receiver.secretKey, c.callbackText(body))))
  }

  /** acceptPairing up to the callback, once the fingerprint is confirmed and the row unexpired. */
  function AcceptRow(who: Parties, c: Crypto, s: State, e: Event): State
    requires e.Accept? && e.row in s.incoming
  {
    var row := s.incoming[e.row];
    if row.status != Pending || (e.reciprocal && row.request.reciprocalOffer.None?) then s
    else if !e.keyRestricted then SetIn(s, e.row, Failed)
    else
      var made := PrepareCallback(who, c, e.row, row.request, e.secret, e.nonce,
        e.payload.(reciprocalAccepted := e.reciprocal));
      SetIn(s, e.row, Accepting).(accepts := s.accepts + [made], calls := s.calls + {|s.accepts|})
  }

  /** What the receiver records once the initiator has answered. */
  function AcceptDone(s: State, i: nat, ok: bool): State
    requires i < |s.accepts|
  {
    var a := s.accepts[i];
    var s' := SetIn(s.(calls := s.calls - {i}), a.row, if ok then Accepted else Failed);
    if ok && a.payload.reciprocalAccepted && a.request.reciprocalOffer.Some? then
      var offer := a.request.reciprocalOffer.value;
      var access := Access(a.keys.reverseApiKey, offer.allowedPathPrefix, offer.storageLimitBytes);
      s'.(destinations := s.destinations + [Destination(i, access)])
    else s'
  }

  // ----- Steps and runs -----

  predicate Fresh(s: State, token: string) {
    forall i :: 0 <= i < |s.issued| ==> s.issued[i].token != token
  }

  /** No one else signs with the initiator's identity. */
  ghost predicate Unforged(who: Parties, c: Crypto, issued: seq<Issue>, body: Request) {
    c.verify(c.requestText(body), body.signature, body.staticPubkey) && body.staticPubkey == who.initiator.publicKey ==>
      exists i :: 0 <= i < |issued| && SameTranscript(c, issued[i].request, body)
  }

  predicate SameTranscript(c: Crypto, a: Request, b: Request) {
    OfferLimit(a.reciprocalOffer) >= 0 && OfferLimit(b.reciprocalOffer) >= 0 && c.requestText(a) == c.requestText(b)
  }

  predicate Answered(s: State, cb: Callback) {
    exists k :: 0 <= k < |s.completions| && s.completions[k].callback == cb
  }

  ghost predicate Enabled(who: Parties, c: Crypto, s: State, e: Event) {
    match e
    case Initiate(_, token, _, _, _, path, limit, offers) =>
      Fresh(s, token) && (offers ==> who.access(path, limit).Some?) && who.Stable(path, limit)
    case PostEnds(row, _) => row in s.posts
    case Receive(body, _) => Determined(body) ==> Unforged(who, c, s.issued, body)
    case Accept(row, _, _, _, _, _) => row in s.incoming
    case AcceptEnds(i, ok) => i in s.calls && i < |s.accepts| && (ok ==> Answered(s, s.accepts[i].callback))
    case Decline(row) => row in s.incoming
    case Deliver(row, cb, _, _) => row in s.outgoing && s.outgoing[row].token == cb.token
    case ExpireRows(_, _) => true
    case DeleteRows(outRows, inRows) =>
      && (forall r :: r in outRows && r in s.outgoing ==> s.outgoing[r].status in {Expired, Failed, Declined})
      && (forall r :: r in inRows && r in s.incoming ==> s.incoming[r].status in {Expired, Failed, Declined})
  }

  function Lapsed(status: Status): Status { if status in {Pending, Accepting} then Expired else status }

  function Next(who: Parties, c: Crypto, s: State, e: Event): State
    requires Enabled(who, c, s, e)
  {
    match e
    case Initiate(_, token, _, _, secret, _, _, _) =>
      var id, issue := |s.issued|, Started(who, c, e);
      s.(issued := s.issued + [issue],
         outgoing := s.outgoing[id := OutRow(token, Pending, Some(secret), issue.offer)],
         posts := s.posts + {id})
    case PostEnds(row, ok) =>
      var s' := s.(posts := s.posts - {row});
      if ok then s' else SetOut(s', row, Failed)
    case Receive(body, room) => ReceiveRequest(c, s, body, room)
    case Accept(_, _, _, _, _, _) => AcceptRow(who, c, s, e)
    case AcceptEnds(i, ok) => AcceptDone(s, i, ok)
    case Decline(row) => if s.incoming[row].status == Pending then SetIn(s, row, Declined) else s
    case Deliver(row, cb, expired, keyRestricted) => HandleCallback(who, c, s, row, cb, expired, keyRestricted)
    case ExpireRows(outRows, inRows) =>
      s.(outgoing := map r | r in s.outgoing ::
           if r in outRows then s.outgoing[r].(status := Lapsed(s.outgoing[r].status)) else s.outgoing[r],
         incoming := map r | r in s.incoming ::
           if r in inRows then s.incoming[r].(status := Lapsed(s.incoming[r].status)) else s.incoming[r])
    case DeleteRows(outRows, inRows) => s.(outgoing := s.outgoing - outRows, incoming := s.incoming - inRows)
  }

  ghost predicate IsRun(who: Parties, c: Crypto, states: seq<State>, events: seq<Event>) {
    && |states| == |events| + 1
    && states[0] == State(map[], map[], 0, [], [], [], [], {}, {})
    && forall k {:trigger events[k]} :: 0 <= k < |events| ==>
         Enabled(who, c, states[k], events[k]) && states[k + 1] == Next(who, c, states[k], events[k])
  }

  // ----- The invariant -----

  /** What is stored with an issue is what was signed. */
  ghost predicate IssueOk(who: Parties, c: Crypto, i: Issue) {
    && i.request.token == i.token && i.request.ephemeralPubkey == c.pub(i.secret)
    && i.request.staticPubkey == who.initiator.publicKey && i.request.reciprocalOffer == i.offer
    && (i.offer.Some? ==> Grantable(who, i.offer.value))
  }

  ghost predicate Grantable(who: Parties, o: Offer) {
    && o.allowedPathPrefix != "" && o.storageLimitBytes > 0
    && who.access(o.allowedPathPrefix, o.storageLimitBytes) == Some((o.allowedPathPrefix, o.storageLimitBytes))
  }

  ghost predicate IssuesOk(who: Parties, c: Crypto, issued: seq<Issue>) {
    && (forall i :: 0 <= i < |issued| ==> IssueOk(who, c, issued[i]))
    && (forall i, j :: 0 <= i < j < |issued| ==> issued[i].token != issued[j].token)
  }

  ghost predicate OutRowOk(issued: seq<Issue>, id: nat, row: OutRow) {
    && id < |issued| && row.token == issued[id].token && row.offer == issued[id].offer
    && (row.secret.Some? ==> row.secret.value == issued[id].secret)
  }

  /** If the body claims to be the initiator's, the initiator signed one with these fields. */
  ghost predicate Genuine(who: Parties, issued: seq<Issue>, body: Request) {
    && (body.reciprocalOffer.Some? ==> body.reciprocalOffer.value.allowedPathPrefix != "")
    && (body.staticPubkey == who.initiator.publicKey ==>
          exists i :: 0 <= i < |issued| && issued[i].token == body.token &&
            SameOffer(issued[i].offer, body.reciprocalOffer))
  }

  ghost predicate RowsOk(who: Parties, s: State) {
    && (forall id :: id in s.outgoing ==> OutRowOk(s.issued, id, s.outgoing[id]))
    && (forall id :: id in s.incoming ==> id < s.nextIncoming && Genuine(who, s.issued, s.incoming[id].request))
  }

  /** The callback answers the request with keys made from it, and the receiver signed it. */
  ghost predicate Answers(who: Parties, c: Crypto, a: Acceptance) {
    && a.keys == DeriveKeys(c, c.dh(a.secret, a.request.ephemeralPubkey), a.request.token)
    && a.callback.token == a.request.token && a.callback.requestStaticPubkey == a.request.staticPubkey
    && a.callback.ephemeralPubkey == c.pub(a.secret) && a.callback.staticPubkey == who.receiver.publicKey
    && a.callback.encryptedPayload == c.seal(a.payload, a.callback.nonce, a.keys.encryptionKey)
    && a.callback.signature == c.sign(who.receiver.secretKey, c.callbackText(a.callback.(signature := "")))
  }

  ghost predicate AcceptanceOk(who: Parties, c: Crypto, issued: seq<Issue>, a: Acceptance) {
    && Genuine(who, issued, a.request) && Answers(who, c, a)
    && (a.payload.reciprocalAccepted ==> a.request.reciprocalOffer.Some?)
  }

  /** What a callback that passed every check is known to be. */
  ghost predicate Processed(who: Parties, c: Crypto, cb: Callback, secret: string, token: string, keys: Keys,
                            payload: Payload)
  {
    && cb.token == token && cb.requestStaticPubkey == who.initiator.publicKey
    && keys == DeriveKeys(c, c.dh(secret, cb.ephemeralPubkey), token)
    && c.unseal(cb.encryptedPayload, cb.nonce, keys.encryptionKey) == Some(payload)
  }

  ghost predicate CompletionOk(who: Parties, c: Crypto, issued: seq<Issue>, k: Completion) {
    && k.row < |issued|
    && Processed(who, c, k.callback, issued[k.row].secret, issued[k.row].token, k.keys, k.payload)
    && k.granted == Grant(who, OutRow(issued[k.row].token, Accepted, None, issued[k.row].offer), k.payload,
      k.keys.reverseApiKey)
  }

  /** An accepted callback closed its row for good. */
  ghost predicate Closed(outgoing: map<nat, OutRow>, row: nat) {
    row in outgoing ==> outgoing[row].status != Pending
  }

  /** The ephemeral secret of a row is gone. */
  ghost predicate Forgotten(outgoing: map<nat, OutRow>, row: nat) {
    row in outgoing ==> outgoing[row].secret.None?
  }

  ghost predicate CompletionsOk(who: Parties, c: Crypto, s: State) {
    && (forall k :: 0 <= k < |s.completions| ==> CompletionOk(who, c, s.issued, s.completions[k]))
    && (forall k :: 0 <= k < |s.completions| ==>
      Closed(s.outgoing, s.completions[k].row) && Forgotten(s.outgoing, s.completions[k].row))
    && (forall j, k :: 0 <= j < k < |s.completions| ==> s.completions[j].row != s.completions[k].row)
  }

  ghost predicate AcceptsOk(who: Parties, c: Crypto, s: State) {
    forall i :: 0 <= i < |s.accepts| ==> AcceptanceOk(who, c, s.issued, s.accepts[i])
  }

  ghost predicate Earned(completions: seq<Completion>, a: Acceptance, access: Access) {
    && (exists k :: 0 <= k < |completions| && completions[k].callback == a.callback)
    && a.payload.reciprocalAccepted && a.request.reciprocalOffer.Some?
    && access == Access(a.keys.reverseApiKey, a.request.reciprocalOffer.value.allowedPathPrefix,
      a.request.reciprocalOffer.value.storageLimitBytes)
  }

  ghost predicate DestinationsOk(s: State) {
    forall i :: 0 <= i < |s.destinations| ==>
      s.destinations[i].acceptance < |s.accepts| &&
        Earned(s.completions, s.accepts[s.destinations[i].acceptance], s.destinations[i].access)
  }

  ghost predicate Inv(who: Parties, c: Crypto, s: State) {
    IssuesOk(who, c, s.issued) && RowsOk(who, s) && CompletionsOk(who, c, s) && AcceptsOk(who, c, s) &&
      DestinationsOk(s)
  }

  ghost predicate QuietOut(row: OutRow, row': OutRow) {
    && row'.token == row.token && row'.offer == row.offer && (row'.secret.Some? ==> row'.secret == row.secret)
    && (row'.status == Pending ==> row.status == Pending)
  }

  ghost predicate QuietIn(row: InRow, row': InRow) {
    row'.request == row.request && (row'.status == Pending ==> row.status == Pending)
  }

  /** Statuses of rows change, and rows go; nothing that was closed opens again. */
  ghost predicate QuietRows(s: State, s': State) {
    && (forall id :: id in s'.outgoing ==> id in s.outgoing && QuietOut(s.outgoing[id], s'.outgoing[id]))
    && (forall id :: id in s'.incoming ==> id in s.incoming && QuietIn(s.incoming[id], s'.incoming[id]))
    && s'.nextIncoming == s.nextIncoming
  }

  ghost predicate Quiet(s: State, s': State) {
    && QuietRows(s, s') && s'.issued == s.issued && s'.accepts == s.accepts
    && s'.completions == s.completions && s'.destinations == s.destinations
  }

  lemma QuietKeepsInv(who: Parties, c: Crypto, s: State, s': State)
    requires Inv(who, c, s) && Quiet(s, s')
    ensures Inv(who, c, s')
  {
    forall id | id in s'.outgoing ensures OutRowOk(s'.issued, id, s'.outgoing[id]) {
      assert OutRowOk(s.issued, id, s.outgoing[id]) && QuietOut(s.outgoing[id], s'.outgoing[id]);
    }
    forall k | 0 <= k < |s'.completions|
      ensures Closed(s'.outgoing, s'.completions[k].row) && Forgotten(s'.outgoing, s'.completions[k].row) {
      assert Closed(s.outgoing, s.completions[k].row) && Forgotten(s.outgoing, s.completions[k].row);
    }
  }

  lemma GenuineStays(who: Parties, issued: seq<Issue>, issue: Issue, body: Request)
    requires Genuine(who, issued, body)
    ensures Genuine(who, issued + [issue], body)
  {
    if body.staticPubkey == who.initiator.publicKey {
      var i :| 0 <= i < |issued| && issued[i].token == body.token && SameOffer(issued[i].offer, body.reciprocalOffer);
      assert (issued + [issue])[i] == issued[i];
    }
  }

  lemma IssuingKeepsInv(who: Parties, c: Crypto, s: State, issue: Issue, posts: set<nat>)
    requires Inv(who, c, s) && IssueOk(who, c, issue) && Fresh(s, issue.token)
    ensures var row := OutRow(issue.token, Pending, Some(issue.secret), issue.offer);
      Inv(who, c, s.(issued := s.issued + [issue], outgoing := s.outgoing[|s.issued| := row], posts := posts))
  {
    var row := OutRow(issue.token, Pending, Some(issue.secret), issue.offer);
    var s' := s.(issued := s.issued + [issue], outgoing := s.outgoing[|s.issued| := row], posts := posts);
    assert forall i :: 0 <= i < |s.issued| ==> s'.issued[i] == s.issued[i];
    forall id | id in s'.outgoing ensures OutRowOk(s'.issued, id, s'.outgoing[id]) {
      assert id in s.outgoing ==> OutRowOk(s.issued, id, s.outgoing[id]);
    }
    forall id | id in s'.incoming ensures Genuine(who, s'.issued, s'.incoming[id].request) {
      GenuineStays(who, s.issued, issue, s.incoming[id].request);
    }
    forall i | 0 <= i < |s'.accepts| ensures AcceptanceOk(who, c, s'.issued, s'.accepts[i]) {
      GenuineStays(who, s.issued, issue, s.accepts[i].request);
    }
    forall k | 0 <= k < |s'.completions|
      ensures CompletionOk(who, c, s'.issued, s'.completions[k])
      ensures Closed(s'.outgoing, s'.completions[k].row) && Forgotten(s'.outgoing, s'.completions[k].row)
    {
      assert CompletionOk(who, c, s.issued, s.completions[k]);
      assert Closed(s.outgoing, s.completions[k].row) && Forgotten(s.outgoing, s.completions[k].row);
    }
    assert IssuesOk(who, c, s'.issued) && DestinationsOk(s');
  }

  lemma StartedIsOk(who: Parties, c: Crypto, e: Event)
    requires e.Initiate? && who.Stable(e.path, e.limit)
    ensures IssueOk(who, c, Started(who, c, e)) && Started(who, c, e).token == e.token
    ensures Started(who, c, e).secret == e.secret
  {
  }

  /** The signature turns into a match of fields. */
  lemma ReceivedIsGenuine(who: Parties, c: Crypto, issued: seq<Issue>, body: Request)
    requires c.Ideal() && IssuesOk(who, c, issued) && Determined(body) && Unforged(who, c, issued, body)
    requires c.verify(c.requestText(body), body.signature, body.staticPubkey)
    ensures Genuine(who, issued, body)
  {
    if body.staticPubkey == who.initiator.publicKey {
      var i :| 0 <= i < |issued| && SameTranscript(c, issued[i].request, body);
      assert c.WritesRequest(issued[i].request) && c.WritesRequest(body);
      RequestTranscriptsEqual(issued[i].request, body);
      assert IssueOk(who, c, issued[i]);
      assert issued[i].token == body.token && SameOffer(issued[i].offer, body.reciprocalOffer);
    }
  }

  lemma StoringKeepsInv(who: Parties, c: Crypto, s: State, body: Request)
    requires Inv(who, c, s) && Genuine(who, s.issued, body)
    ensures Inv(who, c, s.(incoming := s.incoming[s.nextIncoming := InRow(body, Pending)],
      nextIncoming := s.nextIncoming + 1))
  {
  }

  lemma ReceiveKeepsInv(who: Parties, c: Crypto, s: State, body: Request, room: bool)
    requires c.Ideal() && Inv(who, c, s) && (Determined(body) ==> Unforged(who, c, s.issued, body))
    ensures Inv(who, c, ReceiveRequest(c, s, body, room))
  {
    if ValidateRequestEnvelope(body).None? {
      ValidIsDetermined(body);
      if c.verify(c.requestText(body), body.signature, body.staticPubkey) {
        ReceivedIsGenuine(who, c, s.issued, body);
        StoringKeepsInv(who, c, s, body);
      }
    }
  }

  lemma AcceptingKeepsInv(who: Parties, c: Crypto, s: State, a: Acceptance, calls: set<nat>)
    requires Inv(who, c, s) && AcceptanceOk(who, c, s.issued, a)
    ensures Inv(who, c, s.(accepts := s.accepts + [a], calls := calls))
  {
    var s' := s.(accepts := s.accepts + [a], calls := calls);
    assert forall i :: 0 <= i < |s.accepts| ==> s'.accepts[i] == s.accepts[i];
    assert AcceptsOk(who, c, s') && DestinationsOk(s');
  }

  lemma PreparedAnswers(who: Parties, c: Crypto, row: nat, request: Request, secret: string, nonce: string,
                        payload: Payload)
    ensures var a := PrepareCallback(who, c, row, request, secret, nonce, payload);
      Answers(who, c, a) && a.request == request && a.payload == payload
  {
  }

  /** What accepting comes to: nothing, a failed row, or a closed row and a callback for it. */
  lemma AcceptComesTo(who: Parties, c: Crypto, s: State, e: Event) returns (made: Acceptance, calls: set<nat>)
    requires e.Accept? && e.row in s.incoming
    ensures made.row == e.row && Answers(who, c, made) && made.request == s.incoming[e.row].request
    ensures var s' := AcceptRow(who, c, s, e);
      || s' == s || s' == SetIn(s, e.row, Failed)
      || (&& s.incoming[e.row].status == Pending
          && (made.payload.reciprocalAccepted ==> made.request.reciprocalOffer.Some?)
          && s' == SetIn(s, e.row, Accepting).(accepts := s.accepts + [made], calls := calls))
  {
    var request, payload := s.incoming[e.row].request, e.payload.(reciprocalAccepted := e.reciprocal);
    made := PrepareCallback(who, c, e.row, request, e.secret, e.nonce, payload);
    PreparedAnswers(who, c, e.row, request, e.secret, e.nonce, payload);
    calls := s.calls + {|s.accepts|};
  }

  lemma SettingIsQuiet(s: State, row: nat, status: Status)
    requires status != Pending
    ensures Quiet(s, SetIn(s, row, status))
  {
  }

  lemma AcceptKeepsInv(who: Parties, c: Crypto, s: State, e: Event)
    requires Inv(who, c, s) && e.Accept? && e.row in s.incoming
    ensures Inv(who, c, AcceptRow(who, c, s, e))
  {
    var made, calls := AcceptComesTo(who, c, s, e);
    SettingIsQuiet(s, e.row, Failed);
    SettingIsQuiet(s, e.row, Accepting);
    QuietKeepsInv(who, c, s, SetIn(s, e.row, Failed));
    QuietKeepsInv(who, c, s, SetIn(s, e.row, Accepting));
    if made.payload.reciprocalAccepted ==> made.request.reciprocalOffer.Some? {
      assert AcceptanceOk(who, c, s.issued, made);
      AcceptingKeepsInv(who, c, SetIn(s, e.row, Accepting), made, calls);
    }
  }

  lemma RecordingKeepsInv(who: Parties, c: Crypto, s: State, d: Destination)
    requires Inv(who, c, s) && d.acceptance < |s.accepts| && Earned(s.completions, s.accepts[d.acceptance], d.access)
    ensures Inv(who, c, s.(destinations := s.destinations + [d]))
  {
    var s' := s.(destinations := s.destinations + [d]);
    assert CompletionsOk(who, c, s') && AcceptsOk(who, c, s') && RowsOk(who, s');
  }

  lemma AnsweringIsQuiet(s: State, row: nat, calls: set<nat>, status: Status)
    requires status != Pending
    ensures Quiet(s, SetIn(s.(calls := calls), row, status))
  {
  }

  lemma AcceptEndsKeepsInv(who: Parties, c: Crypto, s: State, i: nat, ok: bool)
    requires Inv(who, c, s) && i < |s.accepts| && (ok ==> Answered(s, s.accepts[i].callback))
    ensures Inv(who, c, AcceptDone(s, i, ok))
  {
    var a := s.accepts[i];
    var t := SetIn(s.(calls := s.calls - {i}), a.row, if ok then Accepted else Failed);
    AnsweringIsQuiet(s, a.row, s.calls - {i}, if ok then Accepted else Failed);
    QuietKeepsInv(who, c, s, t);
    if ok && a.payload.reciprocalAccepted && a.request.reciprocalOffer.Some? {
      var offer := a.request.reciprocalOffer.value;
      var access := Access(a.keys.reverseApiKey, offer.allowedPathPrefix, offer.storageLimitBytes);
      EarnedByAnswer(s.completions, a);
      RecordingKeepsInv(who, c, t, Destination(i, access));
      assert AcceptDone(s, i, ok) == t.(destinations := t.destinations + [Destination(i, access)]);
    } else {
      assert AcceptDone(s, i, ok) == t;
    }
  }

  lemma EarnedByAnswer(completions: seq<Completion>, a: Acceptance)
    requires exists k :: 0 <= k < |completions| && completions[k].callback == a.callback
    requires a.payload.reciprocalAccepted && a.request.reciprocalOffer.Some?
    ensures var offer := a.request.reciprocalOffer.value;
      Earned(completions, a, Access(a.keys.reverseApiKey, offer.allowedPathPrefix, offer.storageLimitBytes))
  {
  }

  lemma CompletingKeepsInv(who: Parties, c: Crypto, s: State, id: nat, k: Completion)
    requires Inv(who, c, s) && id in s.outgoing && s.outgoing[id].status == Pending
    requires k.row == id && CompletionOk(who, c, s.issued, k)
    ensures Inv(who, c, s.(outgoing := s.outgoing[id := s.outgoing[id].(status := Accepted, secret := None)],
      completions := s.completions + [k]))
  {
    var t := s.(outgoing := s.outgoing[id := s.outgoing[id].(status := Accepted, secret := None)]);
    assert Quiet(s, t);
    QuietKeepsInv(who, c, s, t);
    forall j | 0 <= j < |s.completions| ensures s.completions[j].row != id {
      assert Closed(s.outgoing, s.completions[j].row);
    }
    AddingCompletion(who, c, t, k);
  }

  lemma AddingCompletion(who: Parties, c: Crypto, s: State, k: Completion)
    requires Inv(who, c, s) && CompletionOk(who, c, s.issued, k) && Closed(s.outgoing, k.row)
    requires Forgotten(s.outgoing, k.row)
    requires forall j :: 0 <= j < |s.completions| ==> s.completions[j].row != k.row
    ensures Inv(who, c, s.(completions := s.completions + [k]))
  {
    var s' := s.(completions := s.completions + [k]);
    assert forall j :: 0 <= j < |s.completions| ==> s'.completions[j] == s.completions[j];
    assert CompletionsOk(who, c, s') && RowsOk(who, s') && AcceptsOk(who, c, s');
    forall i | 0 <= i < |s'.destinations|
      ensures Earned(s'.completions, s'.accepts[s'.destinations[i].acceptance], s'.destinations[i].access)
    {
      EarnedStays(s.completions, k, s.accepts[s.destinations[i].acceptance], s.destinations[i].access);
    }
  }

  lemma EarnedStays(completions: seq<Completion>, k: Completion, a: Acceptance, access: Access)
    requires Earned(completions, a, access)
    ensures Earned(completions + [k], a, access)
  {
    var j :| 0 <= j < |completions| && completions[j].callback == a.callback;
    assert (completions + [k])[j] == completions[j];
  }

  lemma ProcessedIsKnown(who: Parties, c: Crypto, cb: Callback, secret: string, token: string)
    ensures var r := ProcessCallback(who, c, cb, secret, token);
      r.Some? ==> Processed(who, c, cb, secret, token, r.value.0, r.value.1)
  {
  }

  lemma DeliverKeepsInv(who: Parties, c: Crypto, s: State, id: nat, cb: Callback, expired: bool, keyRestricted: bool)
    requires Inv(who, c, s) && id in s.outgoing
    ensures Inv(who, c, HandleCallback(who, c, s, id, cb, expired, keyRestricted))
  {
    var row := s.outgoing[id];
    assert OutRowOk(s.issued, id, row);
    QuietKeepsInv(who, c, s, SetOut(s, id, Failed));
    if row.status == Pending && row.secret.Some? {
      var r := ProcessCallback(who, c, cb, row.secret.value, row.token);
      ProcessedIsKnown(who, c, cb, row.secret.value, row.token);
      if r.Some? {
        CompletingKeepsInv(who, c, s, id,
          Completion(id, cb, r.value.0, r.value.1, Grant(who, row, r.value.1, r.value.0.reverseApiKey)));
      }
    }
  }

  /** Failures by row, refusals and retention only close rows or drop them. */
  lemma QuietEvents(who: Parties, c: Crypto, s: State, e: Event)
    requires Enabled(who, c, s, e) && (e.PostEnds? || e.Decline? || e.ExpireRows? || e.DeleteRows?)
    ensures Quiet(s, Next(who, c, s, e))
  {
  }

  lemma StepKeepsInv(who: Parties, c: Crypto, s: State, e: Event)
    requires c.Ideal() && Inv(who, c, s) && Enabled(who, c, s, e)
    ensures Inv(who, c, Next(who, c, s, e))
  {
    match e {
      case Initiate(_, _, _, _, _, _, _, _) =>
        StartedIsOk(who, c, e);
        IssuingKeepsInv(who, c, s, Started(who, c, e), s.posts + {|s.issued|});
      case Receive(body, room) => ReceiveKeepsInv(who, c, s, body, room);
      case Accept(_, _, _, _, _, _) => AcceptKeepsInv(who, c, s, e);
      case AcceptEnds(i, ok) => AcceptEndsKeepsInv(who, c, s, i, ok);
      case Deliver(row, cb, expired, keyRestricted) => DeliverKeepsInv(who, c, s, row, cb, expired, keyRestricted);
      case _ =>
        QuietEvents(who, c, s, e);
        QuietKeepsInv(who, c, s, Next(who, c, s, e));
    }
  }

  predicate ClosedIncoming(incoming: map<nat, InRow>, row: nat) {
    row in incoming ==> incoming[row].status != Pending
  }

  /** A row that is closed or gone is closed or gone afterwards too, and rows are numbered upwards. */
  ghost predicate NeverReopens(s: State, s': State) {
    && |s.issued| <= |s'.issued| && s.nextIncoming <= s'.nextIncoming
    && (forall id: nat :: id < |s.issued| && Closed(s.outgoing, id) ==> Closed(s'.outgoing, id))
    && (forall id: nat :: id < s.nextIncoming && ClosedIncoming(s.incoming, id) ==> ClosedIncoming(s'.incoming, id))
  }

  /** Row ids are new when rows are made. */
  predicate IdsOk(s: State) {
    (forall id :: id in s.outgoing ==> id < |s.issued|) && (forall id :: id in s.incoming ==> id < s.nextIncoming)
  }

  lemma ReceiverNeverReopens(who: Parties, c: Crypto, s: State, e: Event)
    requires IdsOk(s) && Enabled(who, c, s, e) && (e.Receive? || e.Accept? || e.AcceptEnds?)
    ensures NeverReopens(s, Next(who, c, s, e))
  {
  }

  /** No step makes a row pending again, on either side. */
  lemma StepNeverReopens(who: Parties, c: Crypto, s: State, e: Event)
    requires IdsOk(s) && Enabled(who, c, s, e)
    ensures NeverReopens(s, Next(who, c, s, e))
  {
    if e.Receive? || e.Accept? || e.AcceptEnds? {
      ReceiverNeverReopens(who, c, s, e);
    } else if e.Initiate? || e.Deliver? {
    } else {
      QuietEvents(who, c, s, e);
    }
  }

  lemma {:induction false} RunKeepsInv(who: Parties, c: Crypto, states: seq<State>, events: seq<Event>, k: nat)
    requires c.Ideal() && IsRun(who, c, states, events) && k <= |events|
    ensures Inv(who, c, states[k])
  {
    if k > 0 {
      RunKeepsInv(who, c, states, events, k - 1);
      assert states[k - 1 + 1] == Next(who, c, states[k - 1], events[k - 1]);
      StepKeepsInv(who, c, states[k - 1], events[k - 1]);
    }
  }

  // ----- The receiver's rows -----

  /** Stored requests have different tokens, and each row has been accepted at most once. */
  ghost predicate ReceiverOk(s: State) {
    && (forall i, j :: i in s.incoming && j in s.incoming && i != j ==>
      s.incoming[i].request.token != s.incoming[j].request.token)
    && (forall i :: 0 <= i < |s.accepts| ==>
      s.accepts[i].row < s.nextIncoming && ClosedIncoming(s.incoming, s.accepts[i].row))
    && (forall i, j :: 0 <= i < j < |s.accepts| ==> s.accepts[i].row != s.accepts[j].row)
  }

  lemma QuietKeepsReceiver(s: State, s': State)
    requires ReceiverOk(s) && QuietRows(s, s') && s'.accepts == s.accepts
    ensures ReceiverOk(s')
  {
    forall i | 0 <= i < |s'.accepts| ensures ClosedIncoming(s'.incoming, s'.accepts[i].row) {
      assert ClosedIncoming(s.incoming, s.accepts[i].row);
    }
    forall i, j | i in s'.incoming && j in s'.incoming && i != j
      ensures s'.incoming[i].request.token != s'.incoming[j].request.token {
      assert QuietIn(s.incoming[i], s'.incoming[i]) && QuietIn(s.incoming[j], s'.incoming[j]);
    }
  }

  lemma ReceiveKeepsReceiver(c: Crypto, s: State, body: Request, room: bool)
    requires ReceiverOk(s) && IdsOk(s)
    ensures ReceiverOk(ReceiveRequest(c, s, body, room))
  {
    var s' := ReceiveRequest(c, s, body, room);
    if s' != s {
      assert !TokenStored(s, body.token);
      forall i | 0 <= i < |s'.accepts| ensures ClosedIncoming(s'.incoming, s'.accepts[i].row) {
        assert ClosedIncoming(s.incoming, s.accepts[i].row);
      }
    }
  }

  lemma AddingAcceptance(s: State, made: Acceptance, calls: set<nat>)
    requires ReceiverOk(s) && made.row < s.nextIncoming && ClosedIncoming(s.incoming, made.row)
    requires forall i :: 0 <= i < |s.accepts| ==> s.accepts[i].row != made.row
    ensures ReceiverOk(s.(accepts := s.accepts + [made], calls := calls))
  {
    var s' := s.(accepts := s.accepts + [made], calls := calls);
    forall i | 0 <= i < |s'.accepts|
      ensures s'.accepts[i].row < s'.nextIncoming && ClosedIncoming(s'.incoming, s'.accepts[i].row) {
      assert i < |s.accepts| ==> ClosedIncoming(s.incoming, s.accepts[i].row);
    }
  }

  lemma AcceptKeepsReceiver(who: Parties, c: Crypto, s: State, e: Event)
    requires ReceiverOk(s) && IdsOk(s) && e.Accept? && e.row in s.incoming
    ensures ReceiverOk(AcceptRow(who, c, s, e))
  {
    var made, calls := AcceptComesTo(who, c, s, e);
    ClosingKeepsReceiver(s, e.row, Failed);
    ClosingKeepsReceiver(s, e.row, Accepting);
    if s.incoming[e.row].status == Pending {
      forall i | 0 <= i < |s.accepts| ensures s.accepts[i].row != e.row {
        assert ClosedIncoming(s.incoming, s.accepts[i].row);
      }
      AddingAcceptance(SetIn(s, e.row, Accepting), made, calls);
    }
  }

  lemma ClosingKeepsReceiver(s: State, row: nat, status: Status)
    requires ReceiverOk(s) && row in s.incoming && status != Pending
    ensures ReceiverOk(SetIn(s, row, status)) && ClosedIncoming(SetIn(s, row, status).incoming, row)
  {
    QuietKeepsReceiver(s, SetIn(s, row, status));
  }

  lemma AnswerKeepsReceiver(s: State, i: nat, ok: bool)
    requires ReceiverOk(s) && i < |s.accepts|
    ensures ReceiverOk(AcceptDone(s, i, ok))
  {
    var status := if ok then Accepted else Failed;
    AnsweringIsQuiet(s, s.accepts[i].row, s.calls - {i}, status);
    QuietKeepsReceiver(s, SetIn(s.(calls := s.calls - {i}), s.accepts[i].row, status));
  }

  lemma StepKeepsReceiver(who: Parties, c: Crypto, s: State, e: Event)
    requires ReceiverOk(s) && IdsOk(s) && Enabled(who, c, s, e)
    ensures ReceiverOk(Next(who, c, s, e))
  {
    if e.Receive? {
      ReceiveKeepsReceiver(c, s, e.body, e.room);
    } else if e.Accept? {
      AcceptKeepsReceiver(who, c, s, e);
    } else if e.AcceptEnds? {
      AnswerKeepsReceiver(s, e.index, e.ok);
    } else if !(e.Initiate? || e.Deliver?) {
      QuietEvents(who, c, s, e);
      QuietKeepsReceiver(s, Next(who, c, s, e));
    }
  }

  /** Over every run each stored request is accepted at most once, and no two stored at the same
      time carry the same token. */
  lemma {:induction false} EachRequestAcceptedOnce(who: Parties, c: Crypto, states: seq<State>, events: seq<Event>,
                                                   k: nat)
    requires c.Ideal() && IsRun(who, c, states, events) && k <= |events|
    ensures ReceiverOk(states[k])
  {
    if k > 0 {
      EachRequestAcceptedOnce(who, c, states, events, k - 1);
      RunKeepsInv(who, c, states, events, k - 1);
      InvMeansIdsOk(who, c, states[k - 1]);
      assert states[k - 1 + 1] == Next(who, c, states[k - 1], events[k - 1]);
      StepKeepsReceiver(who, c, states[k - 1], events[k - 1]);
    }
  }

  // ----- What every run guarantees -----

  /** The ephemeral secret of a completed pairing is gone from the initiator's database, at every
      point of every run. */
  lemma CompletedForgetsSecret(who: Parties, c: Crypto, states: seq<State>, events: seq<Event>, k: nat, i: nat)
    requires c.Ideal() && IsRun(who, c, states, events) && k <= |events| && i < |states[k].completions|
    ensures states[k].completions[i].row in states[k].outgoing ==>
              && states[k].outgoing[states[k].completions[i].row].secret.None?
              && states[k].outgoing[states[k].completions[i].row].status != Pending
  {
    RunKeepsInv(who, c, states, events, k);
    var row := states[k].completions[i].row;
    assert Closed(states[k].outgoing, row) && Forgotten(states[k].outgoing, row);
  }

  /** From the moment a row stops being pending it never is again, for the rest of any run. */
  lemma {:induction false} RunNeverReopens(who: Parties, c: Crypto, states: seq<State>, events: seq<Event>, j: nat,
                                           k: nat)
    requires c.Ideal() && IsRun(who, c, states, events) && j <= k <= |events|
    ensures NeverReopens(states[j], states[k])
  {
    if j < k {
      RunNeverReopens(who, c, states, events, j, k - 1);
      RunKeepsInv(who, c, states, events, k - 1);
      InvMeansIdsOk(who, c, states[k - 1]);
      assert states[k - 1 + 1] == Next(who, c, states[k - 1], events[k - 1]);
      StepNeverReopens(who, c, states[k - 1], events[k - 1]);
    }
  }

  lemma InvMeansIdsOk(who: Parties, c: Crypto, s: State)
    requires Inv(who, c, s)
    ensures IdsOk(s)
  {
    forall id | id in s.outgoing ensures id < |s.issued| {
      assert OutRowOk(s.issued, id, s.outgoing[id]);
    }
  }

  /** Whatever the network does, at most one callback is accepted for each token. */
  lemma AtMostOneCallback(who: Parties, c: Crypto, states: seq<State>, events: seq<Event>, j: nat, k: nat)
    requires c.Ideal() && IsRun(who, c, states, events) && j < k < |states[|events|].completions|
    ensures states[|events|].completions[j].callback.token != states[|events|].completions[k].callback.token
  {
    RunKeepsInv(who, c, states, events, |events|);
    var s := states[|events|];
    assert CompletionOk(who, c, s.issued, s.completions[j]) && CompletionOk(who, c, s.issued, s.completions[k]);
  }

  /** When the initiator has accepted a callback that the receiver made, both hold the same keys,
      the initiator has the payload that was sealed, and the receiver answered the very offer the
      initiator signed and stored. */
  lemma AcceptedCallbackAgrees(who: Parties, c: Crypto, s: State, k: nat, i: nat)
    requires c.Ideal() && Inv(who, c, s)
    requires k < |s.completions| && i < |s.accepts| && s.completions[k].callback == s.accepts[i].callback
    ensures s.completions[k].keys == s.accepts[i].keys && s.completions[k].payload == s.accepts[i].payload
    ensures s.completions[k].row < |s.issued| && s.issued[s.completions[k].row].token == s.accepts[i].request.token
    ensures s.issued[s.completions[k].row].offer == s.accepts[i].request.reciprocalOffer
  {
    var done, a := s.completions[k], s.accepts[i];
    assert CompletionOk(who, c, s.issued, done) && AcceptanceOk(who, c, s.issued, a);
    var issue := s.issued[done.row];
    var keys := DeriveKeys(c, c.dh(issue.secret, done.callback.ephemeralPubkey), issue.token);
    assert c.Opens(a.payload, a.callback.nonce, a.keys.encryptionKey, a.callback.nonce, keys.encryptionKey);
    KeysAgree(c, c.dh(a.secret, a.request.ephemeralPubkey), a.request.token,
      c.dh(issue.secret, done.callback.ephemeralPubkey), issue.token);
    var j :| 0 <= j < |s.issued| && s.issued[j].token == a.request.token &&
      SameOffer(s.issued[j].offer, a.request.reciprocalOffer);
    assert IssueOk(who, c, s.issued[j]) && IssueOk(who, c, issue);
    SameIssue(who, c, s.issued, j, done.row);
  }

  lemma SameIssue(who: Parties, c: Crypto, issued: seq<Issue>, i: nat, j: nat)
    requires IssuesOk(who, c, issued) && i < |issued| && j < |issued| && issued[i].token == issued[j].token
    ensures i == j
  {
  }

  lemma KeyAgreement(who: Parties, c: Crypto, states: seq<State>, events: seq<Event>, k: nat, i: nat)
    requires c.Ideal() && IsRun(who, c, states, events)
    requires k < |states[|events|].completions| && i < |states[|events|].accepts|
    requires states[|events|].completions[k].callback == states[|events|].accepts[i].callback
    ensures var s := states[|events|];
      s.completions[k].keys == s.accepts[i].keys && s.completions[k].payload == s.accepts[i].payload
  {
    RunKeepsInv(who, c, states, events, |events|);
    AcceptedCallbackAgrees(who, c, states[|events|], k, i);
  }

  /** Reverse access is granted only for the path and limit of the initiator's own signed offer,
      and only when the sealed payload takes the offer up. */
  lemma GrantsAreOwnOffers(who: Parties, c: Crypto, states: seq<State>, events: seq<Event>, k: nat)
    requires c.Ideal() && IsRun(who, c, states, events) && k < |states[|events|].completions|
    ensures var s := states[|events|];
      var done := s.completions[k];
      && done.row < |s.issued| && s.issued[done.row].token == done.callback.token
      && s.issued[done.row].request.reciprocalOffer == s.issued[done.row].offer
      && (done.granted.Some? <==> done.payload.reciprocalAccepted && s.issued[done.row].offer.Some?)
      && (done.granted.Some? ==>
            done.granted.value == Access(done.keys.reverseApiKey, s.issued[done.row].offer.value.allowedPathPrefix,
                                         s.issued[done.row].offer.value.storageLimitBytes))
  {
    RunKeepsInv(who, c, states, events, |events|);
    var s := states[|events|];
    assert CompletionOk(who, c, s.issued, s.completions[k]);
    assert IssueOk(who, c, s.issued[s.completions[k].row]);
  }

  /** Every destination the receiver stores is access the initiator granted: same key, same path,
      same limit. */
  lemma DestinationsAreGranted(who: Parties, c: Crypto, states: seq<State>, events: seq<Event>, d: nat)
    requires c.Ideal() && IsRun(who, c, states, events) && d < |states[|events|].destinations|
    ensures exists k :: 0 <= k < |states[|events|].completions|
              && states[|events|].completions[k].granted == Some(states[|events|].destinations[d].access)
  {
    RunKeepsInv(who, c, states, events, |events|);
    var s := states[|events|];
    var i := s.destinations[d].acceptance;
    assert Earned(s.completions, s.accepts[i], s.destinations[d].access);
    var k :| 0 <= k < |s.completions| && s.completions[k].callback == s.accepts[i].callback;
    AcceptedCallbackAgrees(who, c, s, k, i);
    assert CompletionOk(who, c, s.issued, s.completions[k]) && AcceptanceOk(who, c, s.issued, s.accepts[i]);
  }

  lemma AnswerVerifies(who: Parties, c: Crypto, a: Acceptance)
    requires c.Ideal() && c.KeyPair(who.receiver) && Answers(who, c, a)
    ensures c.verify(c.callbackText(a.callback), a.callback.signature, who.receiver.publicKey)
  {
    var unsigned := a.callback.(signature := "");
    assert c.WritesCallback(a.callback) && c.WritesCallback(unsigned);
    assert CallbackTranscript(a.callback) == CallbackTranscript(unsigned);
    assert c.Verifies(who.receiver, c.callbackText(unsigned));
  }

  /** The checks of a callback made for the request as it was sent all pass. */
  lemma HonestCallbackPasses(who: Parties, c: Crypto, secret: string, a: Acceptance)
    requires c.Ideal() && c.KeyPair(who.receiver)
    requires Answers(who, c, a) && a.request.ephemeralPubkey == c.pub(secret)
    requires a.request.staticPubkey == who.initiator.publicKey && ValidateCallbackEnvelope(a.callback).None?
    ensures ProcessCallback(who, c, a.callback, secret, a.request.token) == Some((a.keys, a.payload))
  {
    AnswerVerifies(who, c, a);
    assert c.Agrees(secret, a.secret);
    assert c.Opens(a.payload, a.callback.nonce, a.keys.encryptionKey, a.callback.nonce, a.keys.encryptionKey);
  }

  /** The handshake completes: such a callback is accepted while its row is pending, unexpired and
      has its secret, and the reciprocal offer taken up in it is granted. */
  lemma HonestCallbackCompletes(who: Parties, c: Crypto, s: State, id: nat, i: nat)
    requires c.Ideal() && c.KeyPair(who.receiver) && Inv(who, c, s) && id in s.outgoing && i < |s.accepts|
    requires s.outgoing[id].status == Pending && s.outgoing[id].secret.Some?
    requires id < |s.issued| && s.accepts[i].request == s.issued[id].request
    requires ValidateCallbackEnvelope(s.accepts[i].callback).None?
    ensures var a, s' := s.accepts[i], HandleCallback(who, c, s, id, s.accepts[i].callback, false, true);
      var granted := Grant(who, s.outgoing[id], a.payload, a.keys.reverseApiKey);
      && |s'.completions| == |s.completions| + 1 && s'.outgoing[id].status == Accepted
      && s'.completions[|s.completions|] == Completion(id, a.callback, a.keys, a.payload, granted)
      && (a.payload.reciprocalAccepted ==> granted.Some?)
  {
    var a := s.accepts[i];
    assert OutRowOk(s.issued, id, s.outgoing[id]) && IssueOk(who, c, s.issued[id]) && AcceptanceOk(who, c, s.issued, a);
    HonestCallbackPasses(who, c, s.issued[id].secret, a);
  }

  // ----- How long an accepted pairing stays accepted -----

  predicate IsAccepted(s: State, id: nat) {
    id in s.outgoing && s.outgoing[id].status == Accepted
  }

  /** What a step does to an accepted row, exactly: only a late failure of its first request ends it. */
  lemma AcceptedStays(who: Parties, c: Crypto, s: State, e: Event, id: nat)
    requires IdsOk(s) && Enabled(who, c, s, e) && IsAccepted(s, id)
    ensures IsAccepted(Next(who, c, s, e), id) <==> e != PostEnds(id, false)
  {
  }

  /** A row that is over without having been accepted never becomes accepted. */
  lemma UnacceptedStays(who: Parties, c: Crypto, s: State, e: Event, id: nat)
    requires IdsOk(s) && Enabled(who, c, s, e) && id < |s.issued|
    requires Closed(s.outgoing, id) && !IsAccepted(s, id)
    ensures !IsAccepted(Next(who, c, s, e), id)
  {
  }

  /** A request that is no longer under way never is again. */
  lemma PostsEnd(who: Parties, c: Crypto, s: State, e: Event, id: nat)
    requires Enabled(who, c, s, e) && id < |s.issued| && id !in s.posts
    ensures id !in Next(who, c, s, e).posts && e != PostEnds(id, false)
  {
  }

  /** What a step does to a row that is over: the two lemmas above together. */
  lemma AcceptedStep(who: Parties, c: Crypto, s: State, e: Event, id: nat)
    requires IdsOk(s) && Enabled(who, c, s, e) && id < |s.issued| && Closed(s.outgoing, id)
    ensures var s' := Next(who, c, s, e);
      && id < |s'.issued| && Closed(s'.outgoing, id)
      && (IsAccepted(s', id) <==> IsAccepted(s, id) && e != PostEnds(id, false))
  {
    StepNeverReopens(who, c, s, e);
    if IsAccepted(s, id) {
      AcceptedStays(who, c, s, e, id);
    } else {
      UnacceptedStays(who, c, s, e, id);
    }
  }

  lemma RunIdsOk(who: Parties, c: Crypto, states: seq<State>, events: seq<Event>, k: nat)
    requires c.Ideal() && IsRun(who, c, states, events) && k <= |events|
    ensures IdsOk(states[k])
  {
    RunKeepsInv(who, c, states, events, k);
    InvMeansIdsOk(who, c, states[k]);
  }

  ghost predicate LateFailure(events: seq<Event>, j: nat, k: nat, id: nat) {
    exists m :: j <= m < k <= |events| && events[m] == PostEnds(id, false)
  }

  /** An accepted pairing is still accepted at a later point of a run just when no failure of its
      first request came in between. */
  lemma {:induction false} AcceptedUnlessLateFailure(
      who: Parties, c: Crypto, states: seq<State>, events: seq<Event>, j: nat, k: nat, id: nat)
    requires c.Ideal() && IsRun(who, c, states, events) && j <= k <= |events| && IsAccepted(states[j], id)
    ensures id < |states[k].issued| && Closed(states[k].outgoing, id)
    ensures IsAccepted(states[k], id) <==> !LateFailure(events, j, k, id)
  {
    if j < k {
      AcceptedUnlessLateFailure(who, c, states, events, j, k - 1, id);
      assert states[k - 1 + 1] == Next(who, c, states[k - 1], events[k - 1]);
      RunIdsOk(who, c, states, events, k - 1);
      AcceptedStep(who, c, states[k - 1], events[k - 1], id);
      LaterFailure(events, j, k, id);
    } else {
      RunIdsOk(who, c, states, events, k);
    }
  }

  lemma LaterFailure(events: seq<Event>, j: nat, k: nat, id: nat)
    requires j < k <= |events|
    ensures LateFailure(events, j, k, id) <==> LateFailure(events, j, k - 1, id) || events[k - 1] == PostEnds(id, false)
  {
    if m :| j <= m < k && events[m] == PostEnds(id, false) {
      assert m < k - 1 ==> LateFailure(events, j, k - 1, id);
    }
  }

  /** So a pairing accepted after its first request was answered stays accepted for good. */
  lemma {:induction false} AnsweredStaysAccepted(
      who: Parties, c: Crypto, states: seq<State>, events: seq<Event>, j: nat, k: nat, id: nat)
    requires c.Ideal() && IsRun(who, c, states, events) && j <= k <= |events|
    requires IsAccepted(states[j], id) && id !in states[j].posts
    ensures IsAccepted(states[k], id) && id !in states[k].posts
  {
    if j < k {
      AnsweredStaysAccepted(who, c, states, events, j, k - 1, id);
      assert states[k - 1 + 1] == Next(who, c, states[k - 1], events[k - 1]);
      RunIdsOk(who, c, states, events, k - 1);
      PostsEnd(who, c, states[k - 1], events[k - 1], id);
      AcceptedStays(who, c, states[k - 1], events[k - 1], id);
    }
  }

  /** The answer to the first request is written by row alone, so while it is outstanding its failure
      can overwrite the acceptance, though the pairing was completed and stays so. */
  lemma LateFailureOverwrites(who: Parties, c: Crypto, s: State, id: nat)
    requires Inv(who, c, s) && IsAccepted(s, id) && id in s.posts
    ensures Enabled(who, c, s, PostEnds(id, false))
    ensures var s' := Next(who, c, s, PostEnds(id, false));
      Inv(who, c, s') && !IsAccepted(s', id) && Closed(s'.outgoing, id) && s'.completions == s.completions
  {
    QuietEvents(who, c, s, PostEnds(id, false));
    QuietKeepsInv(who, c, s, Next(who, c, s, PostEnds(id, false)));
  }
}
