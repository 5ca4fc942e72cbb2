/** The DTLS-SRTP session of webrtc/dtls/dtls_transport.cc and the packet gate of
    webrtc/pc/peer_connection.cc, on values.  Whatever OpenSSL and libsrtp decide is an
    arbitrary argument. */
module DtlsModel {
  import opened Bytes
  import opened Options
  import Rtp
  import Stun

  datatype Phase = NEW | CONNECTING | CONNECTED | FAILED | CLOSED

  datatype Role = CLIENT | SERVER

  datatype Profile = SRTP_AEAD_AES_128_GCM | SRTP_AES128_CM_SHA1_80 | OTHER

  const KEY := 16
  const MASTER_SIZE := 64
  const TIMEOUT_LIMIT := 5000

  datatype Dtls = Dtls(
    phase: Phase,
    role: Role,
    handshakeDone: bool,
    extracted: bool,
    armed: bool,              // timer_ is running
    masterLength: nat,
    localMaster: seq<byte>,
    remoteMaster: seq<byte>)

  // ------------------------------------------------------------ what OpenSSL says

  /** DTLSv1_get_timeout, and DTLSv1_handle_timeout should it be called. */
  datatype Timeout = Timeout(ms: nat, handled: int)

  datatype SslError = NoError | WantRead | SslFailure | SyscallFailure | OtherError

  /** SSL_get_error, SSL_get_shutdown, the selected profile and the exported material. */
  datatype Status = Status(error: SslError, shutdown: bool, profile: Option<Profile>, material: Option<seq<byte>>)

  // ---------------------------------------------------------------------- steps

  function New(): Dtls {
    Dtls(NEW, SERVER, false, false, false, 0, Zeros(MASTER_SIZE), Zeros(MASTER_SIZE))
  }

  function Zeros(n: nat): (s: seq<byte>)
    ensures |s| == n
  {
    seq(n, _ => 0)
  }

  predicate IsRunning(d: Dtls) {
    d.phase == CONNECTING || d.phase == CONNECTED
  }

  /** UpdateTimeout; the list says what OpenSSL answers each time it is asked. */
  function UpdateTimeout(d: Dtls, answers: seq<Timeout>): Dtls
    decreases |answers|, 0
  {
    if d.handshakeDone || answers == [] then d
    else if answers[0].ms == 0 then HandleTimeout(d, answers[0].handled, answers[1..])
    else if answers[0].ms < TIMEOUT_LIMIT then d.(armed := true)
    else d.(phase := FAILED)
  }

  function HandleTimeout(d: Dtls, handled: int, answers: seq<Timeout>): Dtls
    decreases |answers|, 1
  {
    if d.handshakeDone then d
    else if handled == 1 then UpdateTimeout(d, answers)
    else if handled == -1 then d.(phase := FAILED)
    else d
  }

  function Initialize(d: Dtls, role: Role, done: bool, answers: seq<Timeout>): Dtls {
    var d := d.(phase := CONNECTING, role := role, handshakeDone := d.handshakeDone || done);
    if role == CLIENT then UpdateTimeout(d, answers) else d
  }

  function SaltLength(p: Profile): Option<nat> {
    match p
    case SRTP_AEAD_AES_128_GCM => Some(12)
    case SRTP_AES128_CM_SHA1_80 => Some(14)
    case OTHER => None
  }

  /** The exported bytes in a 64-byte buffer of zeros. */
  function Material(exported: seq<byte>, n: nat): (s: seq<byte>)
    requires n <= MASTER_SIZE
    ensures |s| == MASTER_SIZE
  {
    seq(MASTER_SIZE, i requires 0 <= i < MASTER_SIZE => if i < n && i < |exported| then exported[i] else 0)
  }

  /** Two memcpy calls: key, then salt, into a master array. */
  function Filled(master: seq<byte>, key: seq<byte>, salt: seq<byte>): (s: seq<byte>)
    requires |key| + |salt| <= |master|
    ensures |s| == |master| && s[..|key| + |salt|] == key + salt
  {
    key + salt + master[|key| + |salt|..]
  }

  /** Client key, server key, client salt, server salt: section 4.2 of RFC 5764. */
  function ClientKey(m: seq<byte>): seq<byte>
    requires |m| == MASTER_SIZE
  {
    m[..KEY]
  }

  function ServerKey(m: seq<byte>): seq<byte>
    requires |m| == MASTER_SIZE
  {
    m[KEY..2 * KEY]
  }

  function ClientSalt(m: seq<byte>, salt: nat): seq<byte>
    requires |m| == MASTER_SIZE && 2 * (KEY + salt) <= MASTER_SIZE
  {
    m[2 * KEY..2 * KEY + salt]
  }

  function ServerSalt(m: seq<byte>, salt: nat): seq<byte>
    requires |m| == MASTER_SIZE && 2 * (KEY + salt) <= MASTER_SIZE
  {
    m[2 * KEY + salt..2 * (KEY + salt)]
  }

  /** ExtractSrtpKey: where the four parts lie follows from the role. */
  function ExtractKeys(d: Dtls, profile: Option<Profile>, exported: Option<seq<byte>>): (Dtls, bool)
    requires Sized(d)
  {
    if profile.None? || SaltLength(profile.value).None? then (d, false)
    else
      var salt := SaltLength(profile.value).value;
      var d := d.(masterLength := KEY + salt);
      if exported.None? then (d, false)
      else
        var m := Material(exported.value, 2 * d.masterLength);
        var localKey := if d.role == SERVER then KEY else 0;
        var remoteKey := KEY - localKey;
        var localSalt := if d.role == SERVER then 2 * KEY + salt else 2 * KEY;
        var remoteSalt := if d.role == SERVER then 2 * KEY else 2 * KEY + salt;
        (d.(localMaster := Filled(d.localMaster, m[localKey..localKey + KEY], m[localSalt..localSalt + salt]),
            remoteMaster := Filled(d.remoteMaster, m[remoteKey..remoteKey + KEY], m[remoteSalt..remoteSalt + salt]),
            phase := CONNECTED), true)
  }

  function CheckStatus(d: Dtls, status: Status): (Dtls, bool)
    requires Sized(d)
  {
    if d.handshakeDone && !d.extracted then
      ExtractKeys(d.(extracted := true, armed := false), status.profile, status.material)
    else if status.shutdown || status.error == SslFailure || status.error == SyscallFailure then
      (d.(phase := if d.phase == CONNECTED then CLOSED else FAILED), false)
    else (d, true)
  }

  /** ProcessDtlsPacket up to the sending of the reply.  Sending does not suspend: what cannot go
      out at once is queued.  Timers are let in here nevertheless, so that nothing below depends
      on that. */
  function BeginPacket(d: Dtls, done: bool): Dtls {
    d.(handshakeDone := d.handshakeDone || done)
  }

  function EndPacket(d: Dtls, status: Status, answers: seq<Timeout>): Dtls
    requires Sized(d)
  {
    var (d, ok) := CheckStatus(d, status);
    if ok then UpdateTimeout(d, answers) else d
  }

  function LocalMaster(d: Dtls): seq<byte>
    requires d.masterLength <= |d.localMaster|
  {
    d.localMaster[..d.masterLength]
  }

  function RemoteMaster(d: Dtls): seq<byte>
    requires d.masterLength <= |d.remoteMaster|
  {
    d.remoteMaster[..d.masterLength]
  }

  // ----------------------------------------------------------------------- keys

  predicate Sized(d: Dtls) {
    |d.localMaster| == |d.remoteMaster| == MASTER_SIZE && d.masterLength <= MASTER_SIZE
  }

  /** The masters of a client; a server has them the other way round. */
  lemma ExtractedMasters(d: Dtls, profile: Profile, exported: seq<byte>)
    requires Sized(d) && SaltLength(profile).Some?
    ensures var (e, ok) := ExtractKeys(d, Some(profile), Some(exported));
            var salt := SaltLength(profile).value;
            var m := Material(exported, 2 * (KEY + salt));
            var mine, other := ClientKey(m) + ClientSalt(m, salt), ServerKey(m) + ServerSalt(m, salt);
            && ok && e.phase == CONNECTED && Sized(e) && e.masterLength == KEY + salt
            && LocalMaster(e) == (if d.role == CLIENT then mine else other)
            && RemoteMaster(e) == (if d.role == CLIENT then other else mine)
  {
    hide Material;
  }

  /** On the same exported material the two ends hold each other's masters: what one sends
      with, the other receives with, and they are the masters of section 4.2 of RFC 5764. */
  lemma MastersAgree(client: Dtls, server: Dtls, profile: Profile, exported: seq<byte>)
    requires client.role == CLIENT && server.role == SERVER && SaltLength(profile).Some?
    requires Sized(client) && Sized(server)
    ensures var (c, _) := ExtractKeys(client, Some(profile), Some(exported));
            var (s, _) := ExtractKeys(server, Some(profile), Some(exported));
            var salt := SaltLength(profile).value;
            var m := Material(exported, 2 * (KEY + salt));
            && Sized(c) && Sized(s) && c.masterLength == s.masterLength == KEY + salt
            && LocalMaster(c) == RemoteMaster(s) == ClientKey(m) + ClientSalt(m, salt)
            && LocalMaster(s) == RemoteMaster(c) == ServerKey(m) + ServerSalt(m, salt)
  {
    hide Material, ExtractKeys, LocalMaster, RemoteMaster, ClientKey, ServerKey, ClientSalt, ServerSalt;
    ExtractedMasters(client, profile, exported);
    ExtractedMasters(server, profile, exported);
  }

  /** The layout of section 4.2 of RFC 5764 for the two profiles, byte by byte: two keys of 16 bytes,
      then two salts of 14 or 12. */
  lemma MastersByteByByte(d: Dtls, profile: Profile, x: seq<byte>)
    requires Sized(d) && |x| >= 60 && profile != OTHER
    ensures var (e, ok) := ExtractKeys(d, Some(profile), Some(x));
            var client := if profile == SRTP_AES128_CM_SHA1_80 then x[0..16] + x[32..46] else x[0..16] + x[32..44];
            var server := if profile == SRTP_AES128_CM_SHA1_80 then x[16..32] + x[46..60] else x[16..32] + x[44..56];
            && ok && Sized(e)
            && LocalMaster(e) == (if d.role == CLIENT then client else server)
            && RemoteMaster(e) == (if d.role == CLIENT then server else client)
  {
    hide Material, ExtractKeys, LocalMaster, RemoteMaster;
    ExtractedMasters(d, profile, x);
    var salt := SaltLength(profile).value;
    var m := Material(x, 2 * (KEY + salt));
    MaterialIs(x, 2 * (KEY + salt));
    assert m[..KEY] == x[0..16] && m[KEY..2 * KEY] == x[16..32];
    assert m[2 * KEY..2 * KEY + salt] == x[32..32 + salt];
    assert m[2 * KEY + salt..2 * (KEY + salt)] == x[32 + salt..32 + 2 * salt];
  }

  lemma MaterialIs(x: seq<byte>, n: nat)
    requires n <= MASTER_SIZE && n <= |x|
    ensures forall i :: 0 <= i < n ==> Material(x, n)[i] == x[i]
  {
  }

  // ----------------------------------------------------------------------- runs

  /** A transport and whether a packet is between its two halves. */
  datatype State = State(d: Dtls, busy: bool)

  datatype Event =
    | Open(role: Role, done: bool, answers: seq<Timeout>)
    | Receive(done: bool)
    | Resume(status: Status, answers: seq<Timeout>)
    | Expire(handled: int, answers: seq<Timeout>)

  predicate Enabled(s: State, e: Event) {
    match e
    case Open(_, _, _) => s.d.phase == NEW
    case Receive(_) => !s.busy
    case Resume(_, _) => s.busy
    case Expire(_, _) => s.d.armed
  }

  function Next(s: State, e: Event): State
    requires Sized(s.d)
  {
    match e
    case Open(role, done, answers) => s.(d := Initialize(s.d, role, done, answers))
    case Receive(done) => if IsRunning(s.d) then State(BeginPacket(s.d, done), true) else s
    case Resume(status, answers) => State(EndPacket(s.d, status, answers), false)
    case Expire(handled, answers) => s.(d := HandleTimeout(s.d.(armed := false), handled, answers))
  }

  /** NEW to CONNECTING, CONNECTING to CONNECTED or FAILED, CONNECTED to CLOSED. */
  predicate Moves(a: Phase, b: Phase) {
    a == b || (a == NEW && b == CONNECTING) || (a == CONNECTING && (b == CONNECTED || b == FAILED)) ||
    (a == CONNECTED && b == CLOSED)
  }

  predicate Inv(s: State) {
    && Sized(s.d)
    && (s.d.extracted ==> s.d.handshakeDone)
    && (s.d.phase == CONNECTED || s.d.phase == CLOSED ==> s.d.extracted)
    && (s.d.phase == NEW ==> !s.d.handshakeDone && !s.d.armed && !s.busy)
    && (s.busy && s.d.phase == FAILED ==> !s.d.handshakeDone)
    && (s.busy ==> s.d.phase != CLOSED)
  }

  /** A handshake timeout touches only the phase and the timer, and only to fail. */
  lemma {:induction false} TimeoutEffect(d: Dtls, handled: int, answers: seq<Timeout>)
    ensures var u := UpdateTimeout(d, answers);
            var h := HandleTimeout(d, handled, answers);
            && u == d.(phase := u.phase, armed := u.armed) && (u.phase == d.phase || (u.phase == FAILED && !d.handshakeDone))
            && h == d.(phase := h.phase, armed := h.armed) && (h.phase == d.phase || (h.phase == FAILED && !d.handshakeDone))
            && (d.handshakeDone ==> u == d && h == d)
    decreases |answers|
  {
    if answers != [] {
      TimeoutEffect(d, answers[0].handled, answers[1..]);
    }
  }

  lemma ExtractEffect(d: Dtls, profile: Option<Profile>, exported: Option<seq<byte>>)
    requires Sized(d)
    ensures var (e, ok) := ExtractKeys(d, profile, exported);
            && Sized(e) && e.phase == (if ok then CONNECTED else d.phase)
            && e.handshakeDone == d.handshakeDone && e.extracted == d.extracted && e.armed == d.armed && e.role == d.role
  {
    hide Material;
  }

  lemma ResumeInv(s: State, status: Status, answers: seq<Timeout>)
    requires Inv(s) && s.busy
    ensures var t := State(EndPacket(s.d, status, answers), false); Inv(t) && Moves(s.d.phase, t.d.phase)
  {
    hide ExtractKeys;
    ExtractEffect(s.d.(extracted := true, armed := false), status.profile, status.material);
    var (d, ok) := CheckStatus(s.d, status);
    TimeoutEffect(d, 0, answers);
  }

  /** The phases an event goes through after the one it starts in. */
  function Walk(s: State, e: Event): (ps: seq<Phase>)
    requires Sized(s.d)
    ensures ps != [] && ps[|ps| - 1] == Next(s, e).d.phase
  {
    if e.Open? then [CONNECTING, Next(s, e).d.phase] else [Next(s, e).d.phase]
  }

  predicate Arrows(ps: seq<Phase>) {
    forall i :: 0 <= i < |ps| - 1 ==> Moves(ps[i], ps[i + 1])
  }

  /** Every event keeps the invariant and moves the phase along arrows. */
  lemma StepInv(s: State, e: Event)
    requires Inv(s) && Enabled(s, e)
    ensures Inv(Next(s, e)) && Arrows([s.d.phase] + Walk(s, e))
  {
    hide EndPacket, UpdateTimeout, HandleTimeout;
    match e
    case Open(role, done, answers) =>
      TimeoutEffect(s.d.(phase := CONNECTING, role := role, handshakeDone := s.d.handshakeDone || done), 0, answers);
    case Receive(done) =>
    case Resume(status, answers) => ResumeInv(s, status, answers);
    case Expire(handled, answers) => TimeoutEffect(s.d.(armed := false), handled, answers);
  }

  ghost predicate Allowed(s: State, events: seq<Event>)
    requires Inv(s)
    decreases |events|
  {
    events == [] || (Enabled(s, events[0]) && (Inv(Next(s, events[0])) ==> Allowed(Next(s, events[0]), events[1..])))
  }

  /** The phases a run goes through after the one it starts in. */
  ghost function Later(s: State, events: seq<Event>): (ps: seq<Phase>)
    requires Inv(s) && Allowed(s, events)
    decreases |events|
  {
    if events == [] then []
    else
      StepInv(s, events[0]);
      Walk(s, events[0]) + Later(Next(s, events[0]), events[1..])
  }

  lemma ArrowsJoin(a: Phase, walk: seq<Phase>, later: seq<Phase>)
    requires walk != [] && Arrows([a] + walk) && Arrows([walk[|walk| - 1]] + later)
    ensures Arrows([a] + (walk + later))
  {
    hide Moves;
    var ps, left, right := [a] + (walk + later), [a] + walk, [walk[|walk| - 1]] + later;
    forall i | 0 <= i < |ps| - 1
      ensures Moves(ps[i], ps[i + 1])
    {
      if i < |walk| {
        assert ps[i] == left[i] && ps[i + 1] == left[i + 1];
      } else {
        assert ps[i] == right[i - |walk|] && ps[i + 1] == right[i - |walk| + 1];
      }
    }
  }

  /** From any reachable state on, whatever packets, timers and answers of OpenSSL come. */
  lemma {:induction false} RunMoves(s: State, events: seq<Event>)
    requires Inv(s) && Allowed(s, events)
    ensures Arrows([s.d.phase] + Later(s, events))
    decreases |events|
  {
    hide Next, Enabled, Arrows;
    if events != [] {
      StepInv(s, events[0]);
      var t := Next(s, events[0]);
      RunMoves(t, events[1..]);
      ArrowsJoin(s.d.phase, Walk(s, events[0]), Later(t, events[1..]));
    } else {
      SinglePhase(s.d.phase);
    }
  }

  lemma SinglePhase(a: Phase)
    ensures Arrows([a] + [])
  {
  }

  function Fresh(): (s: State)
    ensures Inv(s)
  {
    State(New(), false)
  }

  /** Every session walks the arrows, so a failed or closed one stays so. */
  lemma EverySessionWalksTheArrows(events: seq<Event>)
    requires Allowed(Fresh(), events)
    ensures var ps := [NEW] + Later(Fresh(), events);
            && Arrows(ps)
            && (forall i, j :: 0 <= i <= j < |ps| && (ps[i] == FAILED || ps[i] == CLOSED) ==> ps[j] == ps[i])
  {
    hide Allowed, Inv, Later;
    RunMoves(Fresh(), events);
    var ps := [NEW] + Later(Fresh(), events);
    forall i, j | 0 <= i <= j < |ps| && (ps[i] == FAILED || ps[i] == CLOSED)
      ensures ps[j] == ps[i]
    {
      TerminalStays(ps, i, j);
    }
  }

  lemma {:induction false} TerminalStays(ps: seq<Phase>, i: nat, j: nat)
    requires Arrows(ps) && i <= j < |ps| && (ps[i] == FAILED || ps[i] == CLOSED)
    ensures ps[j] == ps[i]
    decreases j
  {
    if i < j {
      TerminalStays(ps, i, j - 1);
      assert Moves(ps[j - 1], ps[j - 1 + 1]);
    }
  }

  /** The masters are written once: no event after the extraction changes them. */
  lemma KeysAreFinal(s: State, e: Event)
    requires Inv(s) && Enabled(s, e) && s.d.extracted
    ensures var t := Next(s, e);
            t.d.extracted && t.d.localMaster == s.d.localMaster && t.d.remoteMaster == s.d.remoteMaster
            && t.d.masterLength == s.d.masterLength
  {
    hide ExtractKeys, UpdateTimeout, HandleTimeout;
    match e
    case Resume(status, answers) =>
      var (d, ok) := CheckStatus(s.d, status);
      TimeoutEffect(d, 0, answers);
    case Expire(handled, answers) => TimeoutEffect(s.d.(armed := false), handled, answers);
    case _ =>
  }

  // ------------------------------------------- why a session fails, connects or waits

  /** OpenSSL gets as far as the i-th question: all before it had expired and were answered with a
      retransmission. */
  predicate Asked(answers: seq<Timeout>, i: nat): (yes: bool)
    ensures yes ==> i < |answers|
  {
    i < |answers| && forall j :: 0 <= j < i ==> answers[j].ms == 0 && answers[j].handled == 1
  }

  ghost predicate AskFails(answers: seq<Timeout>) {
    exists i: nat :: Asked(answers, i) && (answers[i].ms >= 5000 || (answers[i].ms == 0 && answers[i].handled == -1))
  }

  ghost predicate AskArms(answers: seq<Timeout>) {
    exists i: nat :: Asked(answers, i) && 1 <= answers[i].ms <= 4999
  }

  lemma AskedLater(answers: seq<Timeout>, i: nat)
    requires answers != [] && answers[0].ms == 0 && answers[0].handled == 1
    ensures Asked(answers, i + 1) <==> Asked(answers[1..], i)
  {
    if Asked(answers, i + 1) {
      assert forall j :: 0 <= j < i ==> answers[1..][j] == answers[j + 1];
    }
    if Asked(answers[1..], i) {
      assert forall j :: 0 < j < i + 1 ==> answers[j] == answers[1..][j - 1];
    }
  }

  /** An expired timeout with a retransmission hands the decision to the next answer. */
  lemma AskStep(answers: seq<Timeout>)
    requires answers != [] && answers[0].ms == 0 && answers[0].handled == 1
    ensures AskFails(answers) <==> AskFails(answers[1..])
    ensures AskArms(answers) <==> AskArms(answers[1..])
  {
    hide Asked;
    forall i: nat
      ensures Asked(answers, i + 1) <==> Asked(answers[1..], i)
    {
      AskedLater(answers, i);
    }
    if AskFails(answers) {
      var i: nat :| Asked(answers, i) && (answers[i].ms >= 5000 || (answers[i].ms == 0 && answers[i].handled == -1));
      assert Asked(answers[1..], i - 1) && answers[1..][i - 1] == answers[i];
    }
    if AskFails(answers[1..]) {
      var i: nat :| Asked(answers[1..], i) && (answers[1..][i].ms >= 5000 || (answers[1..][i].ms == 0 && answers[1..][i].handled == -1));
      assert Asked(answers, i + 1) && answers[i + 1] == answers[1..][i];
    }
    if AskArms(answers) {
      var i: nat :| Asked(answers, i) && 1 <= answers[i].ms <= 4999;
      assert Asked(answers[1..], i - 1) && answers[1..][i - 1] == answers[i];
    }
    if AskArms(answers[1..]) {
      var i: nat :| Asked(answers[1..], i) && 1 <= answers[1..][i].ms <= 4999;
      assert Asked(answers, i + 1) && answers[i + 1] == answers[1..][i];
    }
  }

  /** Any other answer decides alone. */
  lemma AskEnds(answers: seq<Timeout>)
    requires answers == [] || answers[0].ms != 0 || answers[0].handled != 1
    ensures AskFails(answers) <==>
              answers != [] && (answers[0].ms >= 5000 || (answers[0].ms == 0 && answers[0].handled == -1))
    ensures AskArms(answers) <==> answers != [] && 1 <= answers[0].ms <= 4999
  {
    assert forall i: nat :: Asked(answers, i) ==> i == 0;
    if answers != [] {
      assert Asked(answers, 0);
    }
  }

  /** What asking OpenSSL for the timeout of an unfinished handshake leads to. */
  lemma {:induction false} AskingDecides(d: Dtls, answers: seq<Timeout>)
    requires !d.handshakeDone
    ensures UpdateTimeout(d, answers) ==
              d.(phase := if AskFails(answers) then FAILED else d.phase, armed := d.armed || AskArms(answers))
    decreases |answers|
  {
    hide AskFails, AskArms;
    if answers != [] && answers[0].ms == 0 && answers[0].handled == 1 {
      AskStep(answers);
      AskingDecides(d, answers[1..]);
    } else {
      AskEnds(answers);
    }
  }

  predicate Bad(status: Status) {
    status.shutdown || status.error == SslFailure || status.error == SyscallFailure
  }

  /** The status check finds the handshake newly finished. */
  predicate Finishes(s: State, e: Event) {
    e.Resume? && s.d.handshakeDone && !s.d.extracted
  }

  /** OpenSSL has agreed on a supported profile and exports material for it. */
  predicate Keyed(status: Status) {
    && (status.profile == Some(SRTP_AEAD_AES_128_GCM) || status.profile == Some(SRTP_AES128_CM_SHA1_80))
    && status.material.Some?
  }

  /** OpenSSL is asked for a timeout at this event, with these answers. */
  predicate Asks(s: State, e: Event) {
    match e
    case Open(role, done, _) => role == CLIENT && !done
    case Receive(_) => false
    case Resume(status, _) => !s.d.handshakeDone && !Bad(status)
    case Expire(handled, _) => !s.d.handshakeDone && handled == 1
  }

  ghost predicate FailCause(s: State, e: Event) {
    || (Asks(s, e) && AskFails(e.answers))
    || (e.Expire? && !s.d.handshakeDone && e.handled == -1)
    || (e.Resume? && !Finishes(s, e) && Bad(e.status) && s.d.phase != CONNECTED)
  }

  ghost predicate ArmCause(s: State, e: Event) {
    Asks(s, e) && AskArms(e.answers)
  }

  /** Exactly why one event changes phase and timer. */
  lemma StepIsDecided(s: State, e: Event)
    requires Inv(s) && Enabled(s, e)
    ensures var t := Next(s, e);
            && (t.d.phase == FAILED <==> s.d.phase == FAILED || FailCause(s, e))
            && (t.d.phase == CLOSED <==> s.d.phase == CLOSED || (s.d.phase == CONNECTED && e.Resume? && Bad(e.status)))
            && (t.d.phase == CONNECTED <==>
                  (Finishes(s, e) && Keyed(e.status)) || (s.d.phase == CONNECTED && !(e.Resume? && Bad(e.status))))
            && (t.d.armed <==> ArmCause(s, e) || (s.d.armed && !e.Expire? && !Finishes(s, e)))
            && (t.d.handshakeDone <==>
                  s.d.handshakeDone || (e.Open? && e.done) || (e.Receive? && IsRunning(s.d) && e.done))
            && (t.d.extracted <==> s.d.extracted || Finishes(s, e))
            && t.d.role == (if e.Open? then e.role else s.d.role)
  {
    hide UpdateTimeout, AskFails, AskArms, ExtractKeys;
    match e
    case Open(role, done, answers) =>
      var d := s.d.(phase := CONNECTING, role := role, handshakeDone := s.d.handshakeDone || done);
      if !d.handshakeDone {
        AskingDecides(d, answers);
      } else {
        FinishedAsksNothing(d, answers);
      }
    case Receive(done) =>
    case Resume(status, answers) =>
      ResumeIsDecided(s, status, answers);
    case Expire(handled, answers) =>
      if !s.d.handshakeDone {
        AskingDecides(s.d.(armed := false), answers);
      }
  }

  lemma FinishedAsksNothing(d: Dtls, answers: seq<Timeout>)
    requires d.handshakeDone
    ensures UpdateTimeout(d, answers) == d
  {
  }

  lemma ExtractsIff(d: Dtls, status: Status)
    requires Sized(d)
    ensures ExtractKeys(d, status.profile, status.material).1 <==> Keyed(status)
  {
    hide Material;
  }

  lemma ResumeIsDecided(s: State, status: Status, answers: seq<Timeout>)
    requires Inv(s) && s.busy
    ensures var e := Resume(status, answers);
            var d := EndPacket(s.d, status, answers);
            && (d.phase == FAILED <==> s.d.phase == FAILED || FailCause(s, e))
            && (d.phase == CLOSED <==> s.d.phase == CLOSED || (s.d.phase == CONNECTED && Bad(status)))
            && (d.phase == CONNECTED <==> (Finishes(s, e) && Keyed(status)) || (s.d.phase == CONNECTED && !Bad(status)))
            && (d.armed <==> ArmCause(s, e) || (s.d.armed && !Finishes(s, e)))
            && d.handshakeDone == s.d.handshakeDone && (d.extracted <==> s.d.extracted || Finishes(s, e)) && d.role == s.d.role
  {
    hide UpdateTimeout, AskFails, AskArms, ExtractKeys;
    var begun := s.d.(extracted := true, armed := false);
    ExtractEffect(begun, status.profile, status.material);
    ExtractsIff(begun, status);
    var (d, ok) := CheckStatus(s.d, status);
    if d.handshakeDone {
      FinishedAsksNothing(d, answers);
    } else {
      AskingDecides(d, answers);
    }
  }

  ghost function RunTo(s: State, events: seq<Event>): (t: State)
    requires Inv(s) && Allowed(s, events)
    ensures Inv(t)
    decreases |events|
  {
    if events == [] then s
    else
      StepInv(s, events[0]);
      RunTo(Next(s, events[0]), events[1..])
  }

  /** Some event of the run is a reason to fail where it happens. */
  ghost predicate EverFails(s: State, events: seq<Event>)
    requires Inv(s) && Allowed(s, events)
    decreases |events|
  {
    events != [] &&
    (FailCause(s, events[0]) || (StepInv(s, events[0]); EverFails(Next(s, events[0]), events[1..])))
  }

  /** No event of the run is a timer that fires or a handshake that finishes. */
  ghost predicate Undisturbed(s: State, events: seq<Event>)
    requires Inv(s) && Allowed(s, events)
    decreases |events|
  {
    events == [] ||
    (&& !events[0].Expire? && !Finishes(s, events[0])
     && (StepInv(s, events[0]); Undisturbed(Next(s, events[0]), events[1..])))
  }

  /** Some event of the run is a reason to arm the timer, and none after it stops it. */
  ghost predicate LeftArmed(s: State, events: seq<Event>)
    requires Inv(s) && Allowed(s, events)
    decreases |events|
  {
    events != [] &&
    (StepInv(s, events[0]);
     || (ArmCause(s, events[0]) && Undisturbed(Next(s, events[0]), events[1..]))
     || LeftArmed(Next(s, events[0]), events[1..]))
  }

  lemma {:induction false} RunIsDecided(s: State, events: seq<Event>)
    requires Inv(s) && Allowed(s, events)
    ensures RunTo(s, events).d.phase == FAILED <==> s.d.phase == FAILED || EverFails(s, events)
    ensures RunTo(s, events).d.armed <==> LeftArmed(s, events) || (s.d.armed && Undisturbed(s, events))
    decreases |events|
  {
    hide Next, Enabled, FailCause, ArmCause, Finishes;
    if events != [] {
      StepInv(s, events[0]);
      StepIsDecided(s, events[0]);
      RunIsDecided(Next(s, events[0]), events[1..]);
    }
  }

  /** For every sequence of packets, timers and answers: the session has failed if and only if a
      timeout of 5000 ms or more was reported, a retransmission failed, or OpenSSL reported its end
      or an error before the session was connected; and the timer runs if and only if a timeout of 1
      to 4999 ms was reported and since then it has not fired and the handshake has not finished. */
  lemma SessionsFailAndWaitExactlyWhen(events: seq<Event>)
    requires Allowed(Fresh(), events)
    ensures var s := RunTo(Fresh(), events);
            && (s.d.phase == FAILED <==> EverFails(Fresh(), events))
            && (s.d.armed <==> LeftArmed(Fresh(), events))
  {
    hide Allowed, Inv, EverFails, LeftArmed;
    RunIsDecided(Fresh(), events);
  }

  /** An unfinished handshake can be left without a timer: it fires and OpenSSL says that nothing had
      expired. */
  lemma TimerCanStop()
    ensures var s := Next(Fresh(), Open(CLIENT, false, [Timeout(1000, 0)]));
            && s.d.armed && Inv(s) && Enabled(s, Expire(0, []))
            && var t := Next(s, Expire(0, []));
               t.d.phase == CONNECTING && !t.d.handshakeDone && !t.d.armed
  {
  }

  // ------------------------------------------------------------------- the gate

  predicate IsDtls(packet: seq<byte>) {
    |packet| >= 13 && 19 < Val(packet[0]) < 64
  }

  predicate IsRtcp(packet: seq<byte>) {
    |packet| >= 4 && 127 < Val(packet[0]) < 192 && Val(packet[0]) / 64 == 2 && 192 <= Val(packet[1]) <= 223
  }

  predicate IsMedia(packet: seq<byte>) {
    IsRtcp(packet) || Rtp.IsRtp(packet)
  }

  /** PeerConnection: whether ICE is connected, the transport once it exists, and the masters
      the two SRTP sessions were made with. */
  datatype Peer = Peer(ice: bool, dtls: Option<Dtls>, send: Option<seq<byte>>, receive: Option<seq<byte>>, established: bool)

  /** What ICE, OpenSSL and libsrtp decide about one packet; plain is what decryption yields,
      rtcp what ProcessRtcp returns for it. */
  datatype Oracle = Oracle(iceAfter: bool, openDone: bool, readDone: bool, status: Status, answers: seq<Timeout>,
                           sendMade: bool, receiveMade: bool, plain: Option<seq<byte>>, rtcp: int, encrypted: bool)

  datatype Action = Handled | Ignored | Refused | Decrypted(master: seq<byte>, rtcp: bool)

  function ProcessDtlsPacket(d: Dtls, done: bool, status: Status, answers: seq<Timeout>): Dtls
    requires Sized(d)
  {
    if IsRunning(d) then EndPacket(BeginPacket(d, done), status, answers) else d
  }

  /** The part of ProcessPacket behind the handshake. */
  function ProcessMedia(p: Peer, d: Dtls, packet: seq<byte>, o: Oracle): (Peer, Action)
    requires Sized(d)
  {
    if p.send.None? && !o.sendMade then (p, Refused)
    else
      var p := p.(send := if p.send.Some? then p.send else Some(LocalMaster(d)));
      if p.receive.None? && !o.receiveMade then (p, Refused)
      else
        var p := p.(receive := if p.receive.Some? then p.receive else Some(RemoteMaster(d)), established := true);
        if IsRtcp(packet) then (p, Decrypted(p.receive.value, true))
        else if Rtp.IsRtp(packet) then (p, Decrypted(p.receive.value, false))
        else (p, Ignored)
  }

  /** PeerConnection::ProcessPacket */
  function ProcessPacket(p: Peer, packet: seq<byte>, o: Oracle): (Peer, Action)
    requires p.dtls.Some? ==> Sized(p.dtls.value)
  {
    if Stun.IsStun(packet) then (p.(ice := o.iceAfter), Handled)
    else if !p.ice then (p, Ignored)
    else
      var d := if p.dtls.Some? then p.dtls.value else Initialize(New(), SERVER, o.openDone, []);
      var p := p.(dtls := Some(d));
      if IsDtls(packet) then (p.(dtls := Some(ProcessDtlsPacket(d, o.readDone, o.status, o.answers))), Handled)
      else if !IsRunning(d) then (p, Refused)
      else if d.phase != CONNECTED then (p, Ignored)
      else ProcessMedia(p, d, packet, o)
  }

  /** What ProcessPacket returns. */
  function ReturnCode(action: Action, o: Oracle): int {
    match action
    case Handled => 0
    case Ignored => 0
    case Refused => -1
    case Decrypted(_, rtcp) =>
      if o.plain.None? then -1
      else if rtcp then o.rtcp
      else if Rtp.Parse(o.plain.value).Some? && !o.encrypted then -1
      else 0
  }

  datatype PeerEvent = Packet(packet: seq<byte>, oracle: Oracle) | Timer(handled: int, answers: seq<Timeout>)

  function PeerNext(p: Peer, e: PeerEvent): (Peer, Action)
    requires p.dtls.Some? ==> Sized(p.dtls.value)
  {
    match e
    case Packet(packet, o) => ProcessPacket(p, packet, o)
    case Timer(handled, answers) =>
      if p.dtls.Some? && p.dtls.value.armed then
        (p.(dtls := Some(HandleTimeout(p.dtls.value.(armed := false), handled, answers))), Handled)
      else (p, Handled)
  }

  /** The sessions use the masters of the one key extraction. */
  predicate PeerInv(p: Peer) {
    && (p.dtls.Some? ==> Inv(State(p.dtls.value, false)) && p.dtls.value.phase != NEW)
    && (p.send.Some? ==> p.dtls.Some? && p.dtls.value.extracted && p.send.value == LocalMaster(p.dtls.value))
    && (p.receive.Some? ==> p.dtls.Some? && p.dtls.value.extracted && p.receive.value == RemoteMaster(p.dtls.value))
  }

  lemma PeerSized(p: Peer)
    requires PeerInv(p)
    ensures p.dtls.Some? ==> Sized(p.dtls.value)
  {
  }

  lemma DtlsPacketInv(d: Dtls, done: bool, status: Status, answers: seq<Timeout>)
    requires Inv(State(d, false)) && d.phase != NEW
    ensures var e := ProcessDtlsPacket(d, done, status, answers);
            && Inv(State(e, false)) && e.phase != NEW
            && (d.extracted ==> e.extracted && LocalMaster(e) == LocalMaster(d) && RemoteMaster(e) == RemoteMaster(d))
  {
    hide EndPacket;
    if IsRunning(d) {
      StepInv(State(d, false), Receive(done));
      var b := State(BeginPacket(d, done), true);
      ResumeInv(b, status, answers);
      if d.extracted {
        KeysAreFinal(b, Resume(status, answers));
      }
    }
  }

  lemma PeerStepInv(p: Peer, e: PeerEvent)
    requires PeerInv(p)
    ensures PeerInv(PeerNext(p, e).0)
  {
    hide Rtp.IsRtp, Stun.IsStun, IsDtls, IsRtcp, ProcessDtlsPacket, HandleTimeout;
    match e
    case Packet(packet, o) =>
      var d := if p.dtls.Some? then p.dtls.value else Initialize(New(), SERVER, o.openDone, []);
      DtlsPacketInv(d, o.readDone, o.status, o.answers);
    case Timer(handled, answers) =>
      if p.dtls.Some? {
        TimeoutEffect(p.dtls.value.(armed := false), handled, answers);
      }
  }

  /** Media is decrypted exactly when ICE and DTLS are both connected and the sessions exist or
      can be made, and then with the remote master of the handshake. */
  lemma GateIsExact(p: Peer, packet: seq<byte>, o: Oracle)
    requires PeerInv(p)
    ensures var action := ProcessPacket(p, packet, o).1;
            && (action.Decrypted? <==>
                  && p.ice && p.dtls.Some? && p.dtls.value.phase == CONNECTED
                  && IsMedia(packet) && !Stun.IsStun(packet) && !IsDtls(packet)
                  && (p.send.Some? || o.sendMade) && (p.receive.Some? || o.receiveMade))
            && (action.Decrypted? ==> action.master == RemoteMaster(p.dtls.value) && action.rtcp == IsRtcp(packet))
  {
    hide Rtp.IsRtp, Stun.IsStun, IsDtls, IsRtcp, ProcessDtlsPacket;
  }

  /** Media bytes are never mistaken for STUN or DTLS. */
  lemma MediaIsNothingElse(packet: seq<byte>)
    requires IsMedia(packet)
    ensures !Stun.IsStun(packet) && !IsDtls(packet)
  {
    SmallBytes(packet[0]);
    hide Val;
  }

  lemma SmallBytes(b: byte)
    ensures b < 3 ==> Val(b) < 3
  {
  }

  ghost predicate AllGated(p: Peer, events: seq<PeerEvent>)
    requires PeerInv(p)
    decreases |events|
  {
    events == [] ||
    (PeerStepInv(p, events[0]);
     && (PeerNext(p, events[0]).1.Decrypted? ==>
           && p.ice && p.dtls.Some? && p.dtls.value.phase == CONNECTED
           && PeerNext(p, events[0]).1.master == RemoteMaster(p.dtls.value))
     && AllGated(PeerNext(p, events[0]).0, events[1..]))
  }

  /** In every sequence of packets and timers, no packet is decrypted unless ICE and DTLS are
      both connected at that moment. */
  lemma {:induction false} EveryDecryptionIsGated(p: Peer, events: seq<PeerEvent>)
    requires PeerInv(p)
    ensures AllGated(p, events)
    decreases |events|
  {
    hide ProcessPacket, PeerInv;
    if events != [] {
      PeerSized(p);
      PeerStepInv(p, events[0]);
      if events[0].Packet? {
        GateIsExact(p, events[0].packet, events[0].oracle);
      }
      EveryDecryptionIsGated(PeerNext(p, events[0]).0, events[1..]);
    }
  }

  function NewPeer(): (p: Peer)
    ensures PeerInv(p)
  {
    Peer(false, None, None, None, false)
  }

  // ------------------------------------------------- what a packet does besides that

  /** The first byte tells the protocols apart, as RFC 7983 has it; the second tells RTCP from RTP. */
  lemma Demultiplexing(packet: seq<byte>)
    requires packet != []
    ensures var b := Val(packet[0]);
            && (Stun.IsStun(packet) ==> 0 <= b <= 2 && |packet| >= 20)
            && (IsDtls(packet) <==> 20 <= b <= 63 && |packet| >= 13)
            && (Rtp.IsRtp(packet) <==> 128 <= b <= 191 && |packet| >= 12)
            && (IsRtcp(packet) <==> 128 <= b <= 191 && |packet| >= 4 && 192 <= Val(packet[1]) <= 223)
  {
    SmallBytes(packet[0]);
    hide Val;
  }

  /** Which of the four things happens to a packet, and what it may change outside the transport. */
  lemma ActionIsDecided(p: Peer, packet: seq<byte>, o: Oracle)
    requires PeerInv(p)
    ensures var (q, action) := ProcessPacket(p, packet, o);
            var running := p.dtls.None? || p.dtls.value.phase == CONNECTING || p.dtls.value.phase == CONNECTED;
            var connected := p.dtls.Some? && p.dtls.value.phase == CONNECTED;
            var made := (p.send.Some? || o.sendMade) && (p.receive.Some? || o.receiveMade);
            var media := p.ice && !Stun.IsStun(packet) && !IsDtls(packet);
            && (action.Handled? <==> Stun.IsStun(packet) || (p.ice && IsDtls(packet)))
            && (action.Refused? <==> media && (!running || (connected && !made)))
            && (action.Ignored? <==>
                  (!p.ice && !Stun.IsStun(packet)) || (media && running && (!connected || (made && !IsMedia(packet)))))
            && q.ice == (if Stun.IsStun(packet) then o.iceAfter else p.ice)
            && (q.established <==> p.established || (media && connected && made))
            && (p.send.Some? ==> q.send == p.send) && (p.receive.Some? ==> q.receive == p.receive)
  {
    hide Rtp.IsRtp, Stun.IsStun, IsDtls, IsRtcp, ProcessDtlsPacket;
  }

  /** When ProcessPacket returns an error. */
  lemma ErrorsAreReturned(p: Peer, packet: seq<byte>, o: Oracle)
    requires PeerInv(p) && o.rtcp >= -1
    ensures var action := ProcessPacket(p, packet, o).1;
            ReturnCode(action, o) == -1 <==>
              || action.Refused?
              || (action.Decrypted? && o.plain.None?)
              || (action.Decrypted? && o.plain.Some? && IsRtcp(packet) && o.rtcp == -1)
              || (action.Decrypted? && o.plain.Some? && !IsRtcp(packet) && Rtp.Parse(o.plain.value).Some? && !o.encrypted)
  {
    hide Rtp.IsRtp, Rtp.Parse, Stun.IsStun, IsDtls, IsRtcp, ProcessDtlsPacket, ProcessPacket;
    GateIsExact(p, packet, o);
  }

  // ------------------------------------------------ the transport of a peer is a session

  function SessionOf(p: Peer): State {
    if p.dtls.Some? then State(p.dtls.value, false) else Fresh()
  }

  /** What the transport sees of a packet or a timer: with ICE connected any packet but STUN opens it
      as a server if it is not there yet, and a DTLS packet goes into it while it runs. */
  function Seen(p: Peer, e: PeerEvent): seq<Event> {
    match e
    case Packet(packet, o) =>
      if Stun.IsStun(packet) || !p.ice then []
      else
        (if p.dtls.None? then [Open(SERVER, o.openDone, [])] else [])
        + (if IsDtls(packet) && (p.dtls.None? || p.dtls.value.phase == CONNECTING || p.dtls.value.phase == CONNECTED)
           then [Receive(o.readDone), Resume(o.status, o.answers)] else [])
    case Timer(handled, answers) =>
      if p.dtls.Some? && p.dtls.value.armed then [Expire(handled, answers)] else []
  }

  lemma RunNone(s: State)
    requires Inv(s)
    ensures Allowed(s, []) && RunTo(s, []) == s
  {
  }

  lemma RunCons(s: State, e: Event, rest: seq<Event>)
    requires Inv(s) && Enabled(s, e)
    ensures Inv(Next(s, e))
    ensures Allowed(Next(s, e), rest) ==> Allowed(s, [e] + rest) && RunTo(s, [e] + rest) == RunTo(Next(s, e), rest)
  {
    hide Next, Enabled;
    StepInv(s, e);
    assert ([e] + rest)[1..] == rest;
  }

  lemma {:induction false} RunJoin(s: State, a: seq<Event>, b: seq<Event>)
    requires Inv(s) && Allowed(s, a) && Allowed(RunTo(s, a), b)
    ensures Allowed(s, a + b) && RunTo(s, a + b) == RunTo(RunTo(s, a), b)
    decreases |a|
  {
    hide Next, Enabled;
    if a == [] {
      assert a + b == b;
    } else {
      StepInv(s, a[0]);
      RunJoin(Next(s, a[0]), a[1..], b);
      assert (a + b)[1..] == a[1..] + b;
    }
  }

  lemma PacketIsSeen(s: State, done: bool, status: Status, answers: seq<Timeout>)
    requires Inv(s) && !s.busy && IsRunning(s.d)
    ensures var es := [Receive(done), Resume(status, answers)];
            Allowed(s, es) && RunTo(s, es) == State(ProcessDtlsPacket(s.d, done, status, answers), false)
  {
    hide Allowed, RunTo, EndPacket;
    var s1 := Next(s, Receive(done));
    StepInv(s, Receive(done));
    var s2 := Next(s1, Resume(status, answers));
    StepInv(s1, Resume(status, answers));
    RunNone(s2);
    RunCons(s1, Resume(status, answers), []);
    RunCons(s, Receive(done), [Resume(status, answers)] + []);
    assert [Receive(done)] + ([Resume(status, answers)] + []) == [Receive(done), Resume(status, answers)];
  }

  lemma OpenIsSeen(done: bool)
    ensures var es := [Open(SERVER, done, [])];
            && Allowed(Fresh(), es) && RunTo(Fresh(), es) == State(Initialize(New(), SERVER, done, []), false)
            && IsRunning(Initialize(New(), SERVER, done, []))
  {
    hide Allowed, RunTo;
    var e := Open(SERVER, done, []);
    RunCons(Fresh(), e, []);
    RunNone(Next(Fresh(), e));
    assert [e] + [] == [e];
  }

  lemma StepIsSeen(p: Peer, e: PeerEvent)
    requires PeerInv(p)
    ensures Inv(SessionOf(p)) && Allowed(SessionOf(p), Seen(p, e))
    ensures RunTo(SessionOf(p), Seen(p, e)) == SessionOf(PeerNext(p, e).0)
  {
    hide Rtp.IsRtp, Stun.IsStun, IsDtls, IsRtcp, ProcessDtlsPacket, HandleTimeout, Allowed, RunTo, Initialize, Inv;
    assert Inv(SessionOf(p));
    InvSized(SessionOf(p));
    RunNone(SessionOf(p));
    match e
    case Packet(packet, o) =>
      if !Stun.IsStun(packet) && p.ice {
        var first := if p.dtls.None? then [Open(SERVER, o.openDone, [])] else [];
        OpenIsSeen(o.openDone);
        assert Allowed(SessionOf(p), first);
        var s := RunTo(SessionOf(p), first);
        InvSized(s);
        RunNone(s);
        assert first + [] == first;
        if IsDtls(packet) && IsRunning(s.d) {
          PacketIsSeen(s, o.readDone, o.status, o.answers);
          RunJoin(SessionOf(p), first, [Receive(o.readDone), Resume(o.status, o.answers)]);
        } else {
          NotRunningStays(s.d, o.readDone, o.status, o.answers);
        }
      }
    case Timer(handled, answers) =>
      if p.dtls.Some? && p.dtls.value.armed {
        var x := Expire(handled, answers);
        RunCons(SessionOf(p), x, []);
        RunNone(Next(SessionOf(p), x));
        assert [x] + [] == [x];
      }
  }

  lemma InvSized(s: State)
    requires Inv(s)
    ensures Sized(s.d)
  {
  }

  lemma NotRunningStays(d: Dtls, done: bool, status: Status, answers: seq<Timeout>)
    requires Sized(d)
    ensures !IsRunning(d) ==> ProcessDtlsPacket(d, done, status, answers) == d
  {
  }

  function AllSeen(p: Peer, events: seq<PeerEvent>): seq<Event>
    requires PeerInv(p)
    decreases |events|
  {
    if events == [] then []
    else
      PeerStepInv(p, events[0]);
      Seen(p, events[0]) + AllSeen(PeerNext(p, events[0]).0, events[1..])
  }

  function PeerRun(p: Peer, events: seq<PeerEvent>): (q: Peer)
    requires PeerInv(p)
    ensures PeerInv(q)
    decreases |events|
  {
    if events == [] then p
    else
      PeerStepInv(p, events[0]);
      PeerRun(PeerNext(p, events[0]).0, events[1..])
  }

  /** Whatever packets and timers come, the transport of a peer is where a session gets to that is
      opened as a server and sees exactly the DTLS packets that arrive with ICE connected; so what is
      proved of sessions holds of it. */
  lemma {:induction false} PeersRunSessions(p: Peer, events: seq<PeerEvent>)
    requires PeerInv(p)
    ensures Inv(SessionOf(p)) && Allowed(SessionOf(p), AllSeen(p, events))
    ensures RunTo(SessionOf(p), AllSeen(p, events)) == SessionOf(PeerRun(p, events))
    decreases |events|
  {
    hide PeerInv, PeerNext, Seen, Allowed, RunTo, Inv;
    StepIsSeen(p, Timer(0, []));
    RunNone(SessionOf(p));
    if events != [] {
      StepIsSeen(p, events[0]);
      PeerSized(p);
      PeerStepInv(p, events[0]);
      var q := PeerNext(p, events[0]).0;
      PeersRunSessions(q, events[1..]);
      RunJoin(SessionOf(p), Seen(p, events[0]), AllSeen(q, events[1..]));
    }
  }
}
