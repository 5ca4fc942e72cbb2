/** DtlsTransport and PeerConnection as objects; every method does to its fields what the
    function of DtlsModel does to a value. */
module DtlsObjects {
  import opened Bytes
  import opened Options
  import M = DtlsModel
  import Rtp
  import Stun

  class DtlsTransport {
    var phase: M.Phase
    var role: M.Role
    var handshakeDone: bool
    var extracted: bool
    var armed: bool
    var masterLength: nat
    var localMaster: seq<byte>
    var remoteMaster: seq<byte>

    ghost function View(): M.Dtls
      reads this
    {
      M.Dtls(phase, role, handshakeDone, extracted, armed, masterLength, localMaster, remoteMaster)
    }

    constructor ()
      ensures View() == M.New()
    {
      phase, role, handshakeDone, extracted, armed := M.NEW, M.SERVER, false, false, false;
      masterLength, localMaster, remoteMaster := 0, M.Zeros(M.MASTER_SIZE), M.Zeros(M.MASTER_SIZE);
    }

    method Initialize(role: M.Role, done: bool, answers: seq<M.Timeout>)
      modifies this
      ensures View() == M.Initialize(old(View()), role, done, answers)
    {
      phase, this.role := M.CONNECTING, role;
      if done {
        handshakeDone := true;
      }
      if role == M.CLIENT {
        UpdateTimeout(answers);
      }
    }

    method UpdateTimeout(answers: seq<M.Timeout>)
      modifies this
      ensures View() == M.UpdateTimeout(old(View()), answers)
      decreases |answers|, 0
    {
      if handshakeDone || answers == [] {
        return;
      }
      var timeoutMs := answers[0].ms;
      if timeoutMs == 0 {
        HandleTimeout(answers[0].handled, answers[1..]);
      } else if timeoutMs < M.TIMEOUT_LIMIT {
        armed := true;
      } else {
        phase := M.FAILED;
      }
    }

    method HandleTimeout(handled: int, answers: seq<M.Timeout>)
      modifies this
      ensures View() == M.HandleTimeout(old(View()), handled, answers)
      decreases |answers|, 1
    {
      if handshakeDone {
        return;
      }
      if handled == 1 {
        UpdateTimeout(answers);
      } else if handled == -1 {
        phase := M.FAILED;
      }
    }

    method CheckStatus(status: M.Status) returns (ok: bool)
      requires M.Sized(View())
      modifies this
      ensures (View(), ok) == M.CheckStatus(old(View()), status)
    {
      hide M.Material;
      if handshakeDone && !extracted {
        extracted, armed := true, false;
        ok := ExtractSrtpKey(status.profile, status.material);
      } else if status.shutdown || status.error == M.SslFailure || status.error == M.SyscallFailure {
        phase := if phase == M.CONNECTED then M.CLOSED else M.FAILED;
        ok := false;
      } else {
        ok := true;
      }
    }

    method ExtractSrtpKey(profile: Option<M.Profile>, exported: Option<seq<byte>>) returns (ok: bool)
      requires M.Sized(View())
      modifies this
      ensures (View(), ok) == M.ExtractKeys(old(View()), profile, exported)
    {
      hide M.Material;
      if profile.None? || M.SaltLength(profile.value).None? {
        return false;
      }
      var salt := M.SaltLength(profile.value).value;
      masterLength := M.KEY + salt;
      if exported.None? {
        return false;
      }
      var material := M.Material(exported.value, 2 * masterLength);
      var localKey, remoteKey, localSalt, remoteSalt;
      match role {
        case SERVER =>
          remoteKey := 0;
          localKey := remoteKey + M.KEY;
          remoteSalt := localKey + M.KEY;
          localSalt := remoteSalt + salt;
        case CLIENT =>
          localKey := 0;
          remoteKey := localKey + M.KEY;
          localSalt := remoteKey + M.KEY;
          remoteSalt := localSalt + salt;
      }
      localMaster := M.Filled(localMaster, material[localKey..localKey + M.KEY], material[localSalt..localSalt + salt]);
      remoteMaster := M.Filled(remoteMaster, material[remoteKey..remoteKey + M.KEY], material[remoteSalt..remoteSalt + salt]);
      phase := M.CONNECTED;
      return true;
    }

    method ProcessDtlsPacket(done: bool, status: M.Status, answers: seq<M.Timeout>)
      requires M.Sized(View())
      modifies this
      ensures View() == M.ProcessDtlsPacket(old(View()), done, status, answers)
    {
      hide M.CheckStatus, M.UpdateTimeout;
      if phase != M.CONNECTING && phase != M.CONNECTED {
        return;
      }
      if done {
        handshakeDone := true;
      }
      assert View() == M.BeginPacket(old(View()), done);
      var ok := CheckStatus(status);
      if ok {
        UpdateTimeout(answers);
      }
    }
  }

  class PeerConnection {
    var ice: bool
    var dtls: DtlsTransport?
    var send: Option<seq<byte>>
    var receive: Option<seq<byte>>
    var established: bool

    ghost function View(): M.Peer
      reads this, dtls
    {
      M.Peer(ice, if dtls == null then None else Some(dtls.View()), send, receive, established)
    }

    constructor ()
      ensures View() == M.NewPeer()
    {
      ice, dtls, send, receive, established := false, null, None, None, false;
    }

    /** The part of ProcessPacket behind the handshake. */
    method ProcessMedia(packet: seq<byte>, o: M.Oracle) returns (action: M.Action, ret: int)
      requires dtls != null && M.Sized(dtls.View())
      modifies `send, `receive, `established
      ensures (View(), action) == M.ProcessMedia(old(View()), dtls.View(), packet, o)
      ensures ret == M.ReturnCode(action, o)
    {
      hide M.IsRtcp, Rtp.IsRtp, Rtp.Parse;
      if send.None? {
        if !o.sendMade {
          return M.Refused, -1;
        }
        send := Some(dtls.localMaster[..dtls.masterLength]);
      }
      if receive.None? {
        if !o.receiveMade {
          return M.Refused, -1;
        }
        receive := Some(dtls.remoteMaster[..dtls.masterLength]);
      }
      established := true;
      if M.IsRtcp(packet) {
        action := M.Decrypted(receive.value, true);
        ret := if o.plain.None? then -1 else o.rtcp;
      } else if Rtp.IsRtp(packet) {
        action := M.Decrypted(receive.value, false);
        ret := Echo(o);
      } else {
        action, ret := M.Ignored, 0;
      }
    }

    /** Decrypt, decode, encrypt for the way back. */
    method Echo(o: M.Oracle) returns (ret: int)
      ensures ret == M.ReturnCode(M.Decrypted([], false), o)
    {
      hide Rtp.Parse;
      if o.plain.None? {
        return -1;
      }
      var rtp := new Rtp.RtpPacket();
      var val := rtp.Decode(o.plain.value);
      if val < 0 {
        return 0;
      }
      if !o.encrypted {
        return -1;
      }
      return 0;
    }

    /** PeerConnection::ProcessPacket, with the invariant that every packet and timer keeps. */
    method ProcessPacket(packet: seq<byte>, o: M.Oracle) returns (action: M.Action, ret: int)
      requires M.PeerInv(View())
      modifies this, dtls
      ensures M.PeerInv(View())
      ensures (old(View()).dtls.Some? ==> M.Sized(old(View()).dtls.value))
      ensures (View(), action) == M.ProcessPacket(old(View()), packet, o) && ret == M.ReturnCode(action, o)
      ensures dtls == old(dtls) || fresh(dtls)
    {
      hide M.PeerInv, Stun.IsStun, M.IsDtls, M.ProcessDtlsPacket, M.ProcessMedia;
      M.PeerSized(View());
      M.PeerStepInv(View(), M.Packet(packet, o));
      if Stun.IsStun(packet) {
        ice := o.iceAfter;
        return M.Handled, 0;
      }
      if !ice {
        return M.Ignored, 0;
      }
      if dtls == null {
        dtls := new DtlsTransport();
        dtls.Initialize(M.SERVER, o.openDone, []);
      }
      if M.IsDtls(packet) {
        dtls.ProcessDtlsPacket(o.readDone, o.status, o.answers);
        return M.Handled, 0;
      }
      if dtls.phase != M.CONNECTING && dtls.phase != M.CONNECTED {
        return M.Refused, -1;
      } else if dtls.phase != M.CONNECTED {
        return M.Ignored, 0;
      }
      action, ret := ProcessMedia(packet, o);
    }
  }
}
