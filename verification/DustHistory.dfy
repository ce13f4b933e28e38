/** A history in which a holder burns part of a shared unit directly: afterwards the supply is not a whole number of
    shared units, at any rate above 1. */
module DustHistory {
  import opened Primitives
  import opened Arithmetic
  import opened Fees
  import opened Accounts
  import opened Bridge
  import opened Balances
  import opened Invariants
  import MsgCodec
  import SendInstruction
  import LzReceiveInstruction
  import SetPeerConfig
  import InitOft
  import Acceptance

  function Key(n: U8): Bytes32 {
    ZERO32[0 := n]
  }

  lemma KeysDiffer(m: U8, n: U8)
    requires m != n
    ensures Key(m) != Key(n)
  {
    assert Key(m)[0] == m && Key(n)[0] == n;
  }

  const REMOTE_EID: U32 := 7

  // the parties: this store, its peer, the admin, the holder, and the accounts of escrow, holder and mint
  function StoreKey(): Bytes32 { Key(1) }
  function PeerKey(): Bytes32 { Key(2) }
  function AdminKey(): Bytes32 { Key(3) }
  function HolderKey(): Bytes32 { Key(4) }
  function EscrowAccount(): Bytes32 { Key(5) }
  function HolderAccount(): Bytes32 { Key(6) }
  function Authority(): Bytes32 { Key(7) }

  /** A mesh of two members. */
  function Surroundings(): Env {
    Env(Key(8), StoreKey(), 0, map[0 := StoreKey(), REMOTE_EID := PeerKey()],
        (owner, mint, program) => HolderAccount(), eid => Key(9), Key(10), Key(11), Key(12),
        (eid, sender, nonce) => [], (to, guid, index, message) => [],
        (enforced, extra) => Some(enforced + extra))
  }

  function Start(rate: Rate): Chain {
    var accts := InitOft.InitAccounts(AdminKey(), Key(13), 6, EscrowAccount(), Key(14), true);
    var ledger := Ledger(map[EscrowAccount() := TokenAccount(StoreKey(), 0)], 0, Some(Authority()), Key(15), None);
    Chain(InitOft.InitialStore(rate, accts, InitOft.InitParams(Native, AdminKey(), 6, None)),
          map[], ledger, Mailbox(multiset{}, multiset{}), rate, 0)
  }

  /** One shared unit for the holder. */
  function OneUnit(): Packet {
    Packet(REMOTE_EID, PeerKey(), 0, StoreKey(), 1, Key(16), MsgCodec.Encode(HolderKey(), 1, ZERO32, None))
  }

  function Delivery(): Action {
    LzReceive(
      LzReceiveInstruction.ReceiveAccounts(EscrowAccount(), HolderKey(), HolderAccount(), Some(Authority()),
        [ZERO32, ZERO32, ZERO32, ZERO32, ZERO32, ZERO32, ZERO32, ZERO32, ZERO32], true),
      LzReceiveInstruction.ReceiveParams(REMOTE_EID, PeerKey(), 1, Key(16), OneUnit().message))
  }

  /** Register the peer, send one unit here, receive it, burn the smallest amount of it. */
  function Schedule(): seq<Step> {
    [Step(0, ConfigurePeer(AdminKey(), REMOTE_EID, SetPeerConfig.PeerAddress(PeerKey()))),
     Step(0, MemberSend(OneUnit())),
     Step(0, Delivery()),
     Step(0, BurnTokens(HolderKey(), HolderAccount(), 1))]
  }

  /** The state before the delivery. */
  function Dispatched(rate: Rate): Chain {
    Start(rate).(peers := map[REMOTE_EID := DEFAULT_PEER.(peerAddress := PeerKey())],
                 mailbox := Mailbox(multiset{OneUnit()}, multiset{}), others := 0)
  }

  lemma OneUnitIsWorthRate(rate: Rate)
    ensures Worth(rate, OneUnit()) == rate && MsgCodec.SendTo(OneUnit().message) == HolderKey()
    ensures MsgCodec.ComposeMsg(OneUnit().message) == None && |OneUnit().message| == MsgCodec.COMPOSE_MSG_OFFSET
  {
    MsgCodec.DecodesSend(HolderKey(), 1, ZERO32, None);
  }

  lemma Dispatching(rate: Rate)
    ensures var env, s := Surroundings(), Start(rate);
            Next(env, Next(env, s, Schedule()[0]).after, Schedule()[1]).after == Dispatched(rate)
  {
    OneUnitIsWorthRate(rate);
  }

  lemma DispatchedIsSane(rate: Rate)
    ensures WellFormed(Surroundings()) && Sane(Surroundings(), Dispatched(rate))
  {
    KeysDiffer(1, 0);
    KeysDiffer(2, 0);
    SumOfZeros(Dispatched(rate).ledger.accounts);
  }

  lemma StartIsGenesis(rate: Rate)
    ensures Genesis(Surroundings(), Start(rate))
  {
  }

  lemma Delivering(rate: Rate)
    ensures var t := Next(Surroundings(), Dispatched(rate), Schedule()[2]);
            t.outcome.Received? && t.after.ledger.supply == rate
            && t.after.ledger.Owns(HolderKey(), HolderAccount()) && t.after.ledger.Balance(HolderAccount()) == rate
  {
    var env, s, action := Surroundings(), Dispatched(rate), Delivery();
    DispatchedIsSane(rate);
    OneUnitIsWorthRate(rate);
    KeysDiffer(5, 6);
    Acceptance.ReceiveSucceedsWhen(env, s, action.receiveAccounts, action.receiveParams);
    assert LzReceiveInstruction.ClearedPacket(env, action.receiveParams) == OneUnit();
    ReceiveMoves(env, s, action.receiveAccounts, action.receiveParams, s.peers[REMOTE_EID], 0);
    HolderOwns(rate);
  }

  lemma HolderOwns(rate: Rate)
    requires Next(Surroundings(), Dispatched(rate), Schedule()[2]).outcome.Received?
    ensures Next(Surroundings(), Dispatched(rate), Schedule()[2]).after.ledger.Owns(HolderKey(), HolderAccount())
  {
  }

  function Four(env: Env, s: Chain, steps: seq<Step>): Chain
    requires |steps| == 4
  {
    Next(env, Next(env, Next(env, Next(env, s, steps[0]).after, steps[1]).after, steps[2]).after, steps[3]).after
  }

  lemma Burning(rate: Rate)
    ensures Four(Surroundings(), Start(rate), Schedule()).ledger.supply == rate - 1
  {
    Dispatching(rate);
    Delivering(rate);
  }

  lemma ScheduleIsAssumed()
    ensures forall i | 0 <= i < 4 :: Schedule()[i].at == 0 && Assumed(Surroundings(), Schedule()[i].action)
  {
    KeysDiffer(1, 4);
  }

  lemma FourSteps(run: Run)
    requires |run.steps| == 4
    ensures run.states[4] == Four(run.env, run.states[0], run.steps)
  {
    assert StepAt(run, 0) == run.steps[0] && StepAt(run, 1) == run.steps[1];
    assert StepAt(run, 2) == run.steps[2] && StepAt(run, 3) == run.steps[3];
  }

  lemma FollowsSchedule(rate: Rate) returns (run: Run)
    ensures run.env == Surroundings() && run.states[0] == Start(rate) && run.steps == Schedule()
  {
    ScheduleIsAssumed();
    DispatchedIsSane(rate);
    run := RunsExist(Surroundings(), Start(rate), Schedule());
  }

  lemma EndsWith(run: Run, rate: Rate)
    requires run.env == Surroundings() && run.states[0] == Start(rate) && run.steps == Schedule()
    ensures run.states[4].ledger.supply == rate - 1
  {
    FourSteps(run);
    Burning(rate);
  }

  lemma StartsAs(rate: Rate, env: Env, s: Chain)
    requires env == Surroundings() && s == Start(rate)
    ensures Genesis(env, s) && s.store.ld2sdRate == rate
  {
    StartIsGenesis(rate);
  }

  lemma BurnsDust(rate: Rate) returns (run: Run)
    ensures Genesis(run.env, run.states[0]) && run.states[0].store.ld2sdRate == rate
    ensures |run.steps| == 4 && run.states[4].ledger.supply == rate - 1
  {
    run := FollowsSchedule(rate);
    StartsAs(rate, run.env, run.states[0]);
    EndsWith(run, rate);
  }

  lemma NotWhole(rate: Rate)
    requires rate > 1
    ensures (rate - 1) % rate != 0
  {
    FloorUnique(rate - 1, rate, 0);
  }

  /** At every rate above 1 some history leaves a supply that is no whole number of shared units. */
  lemma LeavesDust(rate: Rate) returns (run: History)
    requires rate > 1
    ensures run.states[0].store.ld2sdRate == rate && |run.steps| == 4
    ensures run.states[4].ledger.supply % rate != 0
  {
    var burnt := BurnsDust(rate);
    NotWhole(rate);
    run := burnt;
  }
}
