/**
 The three-way handshake of networks_lab/assignment3/Barno/Assign3Final: `connect` of
 client_header.h against `accept` of server_header.h.  The channel loses, repeats and reorders
 packets: each side may receive any packet ever sent to it, any number of times, or none.
 A timeout of `select` may happen at any time.
 */
module Handshake {

  datatype Kind = Syn | SynAck | Ack
  datatype Packet = Packet(kind: Kind, seqNo: int, ackNo: int)

  datatype ServerLine = First | Sending | Selecting | Accepted
  datatype Server = Server(at: ServerLine, seqNo: int, seqRcv: int, flag: bool, synmsg: Packet)

  datatype ClientLine = SendSyn | AwaitSynAck | SendAck | AwaitExtra | Connected
  datatype Client = Client(at: ClientLine, seqNo: int, seqRcv: int, synAckMsg: Packet)

  /** `up` and `down`: everything sent to the server and to the client. */
  datatype State = State(server: Server, client: Client, up: set<Packet>, down: set<Packet>)

  // ---------- Steps ----------

  ghost predicate Start(s: State) {
    && s.server.at == First && s.client.at == SendSyn && s.up == {} && s.down == {}
    && 1000 <= s.server.seqNo < 9000 && 1000 <= s.client.seqNo < 9000
    && s.server.seqRcv == 100 && s.client.seqRcv == 200 && s.server.flag
  }

  /** What the server does with a packet while it waits for the acknowledgement. */
  function Heard(s: Server, p: Packet): Server {
    if p.kind == Syn then s.(synmsg := p, flag := true, at := Sending)
    else if p.ackNo == s.seqNo then s.(synmsg := p, at := Accepted)
    else s.(synmsg := p, flag := false, at := Sending)
  }

  ghost predicate ServerStep(s: State, t: State) {
    && t.client == s.client && t.up == s.up
    && match s.server.at
       case First => t.down == s.down && exists p :: p in s.up && t.server == s.server.(synmsg := p, at := Sending)
       case Sending =>
         var rcv := if s.server.flag then s.server.synmsg.seqNo else s.server.seqRcv;
         && t.server == s.server.(seqRcv := rcv, at := Selecting)
         && t.down == s.down + {Packet(SynAck, s.server.seqNo, rcv)}
       case Selecting =>
         && t.down == s.down
         && (t.server == s.server.(flag := false, at := Sending)
             || exists p :: p in s.up && t.server == Heard(s.server, p))
       case Accepted => false
  }

  /** What the client does with a packet while it waits for an answer. */
  function Answered(c: Client, p: Packet): Client {
    if p.ackNo == c.seqNo then c.(synAckMsg := p, seqRcv := p.seqNo, at := SendAck)
    else c.(synAckMsg := p, at := SendSyn)
  }

  ghost predicate ClientStep(s: State, t: State) {
    && t.server == s.server && t.down == s.down
    && match s.client.at
       case SendSyn => t.client == s.client.(at := AwaitSynAck) && t.up == s.up + {Packet(Syn, s.client.seqNo, 0)}
       case AwaitSynAck =>
         && t.up == s.up
         && (t.client == s.client.(at := SendSyn) || exists p :: p in s.down && t.client == Answered(s.client, p))
       case SendAck => t.client == s.client.(at := AwaitExtra) && t.up == s.up + {Packet(Ack, 0, s.client.seqRcv)}
       case AwaitExtra =>
         && t.up == s.up
         && (t.client == s.client.(at := Connected)
             || exists p :: p in s.down && t.client == s.client.(synAckMsg := p, at := Connected))
       case Connected => false
  }

  ghost predicate IsRun(run: seq<State>) {
    && run != [] && Start(run[0])
    && forall i :: 0 <= i < |run| - 1 ==> ServerStep(run[i], run[i + 1]) || ClientStep(run[i], run[i + 1])
  }

  // ---------- Invariant ----------

  predicate HasAnswer(c: Client) { c.at == SendAck || c.at == AwaitExtra || c.at == Connected }

  ghost predicate Inv(s: State) {
    && (forall p :: p in s.up ==>
          p == Packet(Syn, s.client.seqNo, 0) || (p == Packet(Ack, 0, s.server.seqNo) && HasAnswer(s.client)))
    && (forall p :: p in s.down ==> p == Packet(SynAck, s.server.seqNo, s.client.seqNo))
    && (s.down != {} ==> s.server.at != First && s.server.seqRcv == s.client.seqNo)
    && (HasAnswer(s.client) ==> s.down != {} && s.client.seqRcv == s.server.seqNo)
    && (s.server.at != First ==> s.server.synmsg in s.up)
    && (s.server.at == First ==> s.server.flag)
    && (s.server.at == Sending ==>
          if s.server.flag then s.server.synmsg.kind == Syn else s.down != {})
    && (s.server.at == Selecting || s.server.at == Accepted ==> s.down != {})
    && (s.server.at == Accepted ==> s.server.synmsg.kind != Syn)
    && (s.client.at == AwaitExtra || s.client.at == Connected ==> Packet(Ack, 0, s.server.seqNo) in s.up)
  }

  lemma ServerKeepsInv(s: State, t: State)
    requires Inv(s) && ServerStep(s, t)
    ensures Inv(t)
  {}

  lemma ClientKeepsInv(s: State, t: State)
    requires Inv(s) && ClientStep(s, t)
    ensures Inv(t)
  {}

  lemma {:induction false} RunKeepsInv(run: seq<State>, k: nat)
    requires IsRun(run) && k < |run|
    ensures Inv(run[k])
  {
    if k > 0 {
      RunKeepsInv(run, k - 1);
      if ServerStep(run[k - 1], run[k]) {
        ServerKeepsInv(run[k - 1], run[k]);
      } else {
        ClientKeepsInv(run[k - 1], run[k]);
      }
    }
  }

  // ---------- Agreement ----------

  /** Once `accept` has returned, the client has its answer and each side knows the other's number. */
  lemma AcceptAgrees(run: seq<State>, k: nat)
    requires IsRun(run) && k < |run| && run[k].server.at == Accepted
    ensures HasAnswer(run[k].client)
    ensures run[k].server.seqRcv == run[k].client.seqNo && run[k].client.seqRcv == run[k].server.seqNo
  {
    RunKeepsInv(run, k);
  }

  /** So it is once `connect` has returned, though the server may still be waiting. */
  lemma ConnectAgrees(run: seq<State>, k: nat)
    requires IsRun(run) && k < |run| && run[k].client.at == Connected
    ensures run[k].server.at != First
    ensures run[k].server.seqRcv == run[k].client.seqNo && run[k].client.seqRcv == run[k].server.seqNo
  {
    RunKeepsInv(run, k);
  }

  /** Once answered, the client's numbers never change again, whatever the channel repeats. */
  lemma {:induction false} NumbersStay(run: seq<State>, j: nat, k: nat)
    requires IsRun(run) && j <= k < |run| && HasAnswer(run[j].client)
    ensures HasAnswer(run[k].client)
    ensures run[k].client.seqRcv == run[j].client.seqRcv && run[k].client.seqNo == run[j].client.seqNo
    ensures run[k].server.seqRcv == run[j].server.seqRcv && run[k].server.seqNo == run[j].server.seqNo
  {
    if j < k {
      NumbersStay(run, j, k - 1);
      RunKeepsInv(run, k - 1);
      RunKeepsInv(run, k);
      RunKeepsInv(run, j);
    }
  }

  // ---------- What the server makes of a packet ----------

  /** A SYN is answered with its own number, whatever the server held before. */
  lemma SynIsAnswered(s: State, t: State, u: State, p: Packet)
    requires s.server.at == Selecting && p.kind == Syn && t.server == Heard(s.server, p) && ServerStep(t, u)
    ensures u.server.at == Selecting && u.server.seqRcv == p.seqNo
    ensures u.down == t.down + {Packet(SynAck, s.server.seqNo, p.seqNo)}
  {}

  /** Anything else ends the wait exactly if it acknowledges the server's number; if not, the SYNACK is sent again. */
  lemma OthersAreChecked(s: State, t: State, p: Packet)
    requires s.server.at == Selecting && p.kind != Syn && t.server == Heard(s.server, p)
    ensures t.server.at == Accepted <==> p.ackNo == s.server.seqNo
    ensures t.server.seqRcv == s.server.seqRcv && t.server.seqNo == s.server.seqNo
    ensures p.ackNo != s.server.seqNo ==>
      forall u :: ServerStep(t, u) ==> u.down == t.down + {Packet(SynAck, s.server.seqNo, s.server.seqRcv)}
  {}

  // ---------- Nothing heard ----------

  /** A server that hears nothing sends its SYNACK again. */
  lemma ServerSendsAgain(run: seq<State>, k: nat) returns (t: State, u: State)
    requires IsRun(run) && k < |run| && run[k].server.at == Selecting
    ensures ServerStep(run[k], t) && ServerStep(t, u) && u.server.at == Selecting
    ensures t.down == run[k].down && t.server.synmsg == u.server.synmsg == run[k].server.synmsg
    ensures u.down == t.down + {Packet(SynAck, run[k].server.seqNo, run[k].server.seqRcv)}
  {
    t := run[k].(server := run[k].server.(flag := false, at := Sending));
    u := t.(server := t.server.(at := Selecting), down := t.down + {Packet(SynAck, t.server.seqNo, t.server.seqRcv)});
  }

  /** A client that hears nothing sends its SYN again. */
  lemma ClientSendsAgain(run: seq<State>, k: nat) returns (t: State, u: State)
    requires IsRun(run) && k < |run| && run[k].client.at == AwaitSynAck
    ensures ClientStep(run[k], t) && ClientStep(t, u) && u.client.at == AwaitSynAck
    ensures t.up == run[k].up && u.up == t.up + {Packet(Syn, run[k].client.seqNo, 0)}
    ensures t.client.synAckMsg == u.client.synAckMsg == run[k].client.synAckMsg
  {
    t := run[k].(client := run[k].client.(at := SendSyn));
    u := t.(client := t.client.(at := AwaitSynAck), up := t.up + {Packet(Syn, t.client.seqNo, 0)});
  }

  // ---------- Both sides can always return ----------

  ghost predicate GoesOn(run: seq<State>, more: seq<State>) {
    IsRun(run) && IsRun(more) && |run| <= |more| && more[..|run|] == run
  }

  function Last(run: seq<State>): State
    requires run != []
  {
    run[|run| - 1]
  }

  lemma OneMore(run: seq<State>, more: seq<State>, t: State) returns (longer: seq<State>)
    requires GoesOn(run, more) && (ServerStep(Last(more), t) || ClientStep(Last(more), t))
    ensures GoesOn(run, longer) && Last(longer) == t && Inv(t)
  {
    longer := more + [t];
    forall i | 0 <= i < |longer| - 1
      ensures ServerStep(longer[i], longer[i + 1]) || ClientStep(longer[i], longer[i + 1]) {
      if i < |more| - 1 { assert longer[i] == more[i] && longer[i + 1] == more[i + 1]; }
    }
    RunKeepsInv(longer, |longer| - 1);
  }

  /** The client sends its SYN, again if it must. */
  lemma SynIsSent(run: seq<State>, more: seq<State>) returns (longer: seq<State>)
    requires GoesOn(run, more) && !HasAnswer(Last(more).client)
    ensures GoesOn(run, longer) && Last(longer).client.at == AwaitSynAck && Last(longer).server == Last(more).server
    ensures Packet(Syn, Last(longer).client.seqNo, 0) in Last(longer).up && Inv(Last(longer))
  {
    longer := more;
    if Last(longer).client.at == AwaitSynAck {
      longer := OneMore(run, longer, Last(longer).(client := Last(longer).client.(at := SendSyn)));
    }
    var s := Last(longer);
    longer := OneMore(run, longer, s.(client := s.client.(at := AwaitSynAck), up := s.up + {Packet(Syn,
        s.client.seqNo, 0)}));
  }

  /** The server, with a SYN to hear, gets to wait for the acknowledgement of its SYNACK. */
  lemma SynAckIsSent(run: seq<State>, more: seq<State>) returns (longer: seq<State>)
    requires GoesOn(run, more) && Inv(Last(more)) && Last(more).server.at != Accepted
    requires Last(more).server.at == First ==> Packet(Syn, Last(more).client.seqNo, 0) in Last(more).up
    ensures GoesOn(run, longer) && Inv(Last(longer)) && Last(longer).server.at == Selecting
    ensures Last(longer).client == Last(more).client && Last(longer).up == Last(more).up
  {
    longer := more;
    if Last(longer).server.at == First {
      var p := Packet(Syn, Last(longer).client.seqNo, 0);
      longer := OneMore(run, longer, Last(longer).(server := Last(longer).server.(synmsg := p, at := Sending)));
    }
    if Last(longer).server.at == Sending {
      var s := Last(longer);
      var rcv := if s.server.flag then s.server.synmsg.seqNo else s.server.seqRcv;
      longer := OneMore(run, longer, s.(server := s.server.(seqRcv := rcv, at := Selecting),
                                        down := s.down + {Packet(SynAck, s.server.seqNo, rcv)}));
    }
  }

  /** The client hears the SYNACK. */
  lemma SynAckIsHeard(run: seq<State>, more: seq<State>) returns (longer: seq<State>)
    requires GoesOn(run, more) && Inv(Last(more)) && Last(more).client.at == AwaitSynAck && Last(more).down != {}
    ensures GoesOn(run, longer) && Inv(Last(longer)) && HasAnswer(Last(longer).client)
  {
    var s := Last(more);
    var p :| p in s.down;
    longer := OneMore(run, more, s.(client := Answered(s.client, p)));
  }

  /** A client with its answer acknowledges it and returns. */
  lemma ClientReturns(run: seq<State>, more: seq<State>) returns (longer: seq<State>)
    requires GoesOn(run, more) && Inv(Last(more)) && HasAnswer(Last(more).client)
    ensures GoesOn(run, longer) && Inv(Last(longer)) && Last(longer).client.at == Connected
  {
    longer := more;
    if Last(longer).client.at == SendAck {
      var s := Last(longer);
      longer := OneMore(run, longer, s.(client := s.client.(at := AwaitExtra), up := s.up + {Packet(Ack, 0,
          s.client.seqRcv)}));
    }
    if Last(longer).client.at == AwaitExtra {
      longer := OneMore(run, longer, Last(longer).(client := Last(longer).client.(at := Connected)));
    }
  }

  /** The server hears the acknowledgement and returns. */
  lemma ServerReturns(run: seq<State>, more: seq<State>) returns (longer: seq<State>)
    requires GoesOn(run, more) && Inv(Last(more)) && Last(more).client.at == Connected
    ensures GoesOn(run, longer) && Last(longer).client.at == Connected && Last(longer).server.at == Accepted
  {
    longer := more;
    if Last(longer).server.at != Accepted {
      longer := SynAckIsSent(run, longer);
      var s := Last(longer);
      var p := Packet(Ack, 0, s.server.seqNo);
      assert Heard(s.server, p).at == Accepted;
      longer := OneMore(run, longer, s.(server := Heard(s.server, p)));
    }
  }

  /** Whatever was lost or repeated so far, every run can go on until both sides have returned. */
  lemma BothCanReturn(run: seq<State>) returns (longer: seq<State>)
    requires IsRun(run)
    ensures IsRun(longer) && |run| <= |longer| && longer[..|run|] == run
    ensures Last(longer).client.at == Connected && Last(longer).server.at == Accepted
    ensures Last(longer).server.seqRcv == Last(longer).client.seqNo
        && Last(longer).client.seqRcv == Last(longer).server.seqNo
  {
    longer := run;
    RunKeepsInv(run, |run| - 1);
    if !HasAnswer(Last(longer).client) {
      longer := SynIsSent(run, longer);
      longer := SynAckIsSent(run, longer);
      longer := SynAckIsHeard(run, longer);
    }
    longer := ClientReturns(run, longer);
    longer := ServerReturns(run, longer);
    AcceptAgrees(longer, |longer| - 1);
  }
}
