/**
 The EIP-2935 contract: a ring of the last 8191 block hashes, written by the system address once per
 block and read by anybody.

 The storage ring is proved to agree with the unbounded history of submitted hashes over every run;
 module HistoryAssembly relates the same code to the EVM assembly it was derived from.
 */
module BlockHistory {
  import opened Bytes
  import opened Prelude

  const WINDOW := 8191
  const FUEL_DENOM_RATE := 20
  const SYSTEM_ADDRESS := 0xffff_ffff_ffff_ffff_ffff_ffff_ffff_ffff_ffff_fffe

  const GAS_BAD_BLOCK_INPUT_BRANCH := 47
  const GAS_INVALID_BLOCK_BRANCH := 79
  const GAS_BLOCK_TOO_OLD_BRANCH := 106
  const GAS_RETRIEVE_SUCCESS_BRANCH := 125
  const GAS_SUBMIT_SUCCESS_BRANCH := 43

  // Unwritten slots read as zero.
  type Storage = map<nat, nat>

  function Load(storage: Storage, slot: nat): nat {
    if slot in storage then storage[slot] else 0
  }

  // A call: who, in which block, with what calldata, and how the host answers a storage access.
  datatype Call = Call(caller: nat, block: nat, input: seq<byte>, fault: Option<nat>)

  datatype ExitCode = Panic | Fault(code: nat)

  // ---------------------------------------------------------------- specification

  datatype Outcome = Stopped | Returned(word: nat) | Reverted | Faulted(code: nat)

  // What a call does: how it ends, the storage it leaves and the gas it charges itself.
  datatype Reply = Reply(outcome: Outcome, storage: Storage, gas: nat)

  predicate Served(block: nat, requested: nat) {
    requested < block <= requested + WINDOW
  }

  function Submitted(storage: Storage, call: Call): Reply {
    if |call.input| != 32 then Reply(Reverted, storage, GAS_BAD_BLOCK_INPUT_BRANCH)
    else if call.block == 0 then Reply(Reverted, storage, GAS_INVALID_BLOCK_BRANCH)
    else if call.fault.Some? then Reply(Faulted(call.fault.value), storage, 0)
    else Reply(Stopped, storage[(call.block - 1) % WINDOW := FromBe(call.input)], GAS_SUBMIT_SUCCESS_BRANCH)
  }

  function Retrieved(storage: Storage, call: Call): Reply {
    if |call.input| != 32 then Reply(Reverted, storage, GAS_BAD_BLOCK_INPUT_BRANCH)
    else
      var requested := FromBe(call.input);
      if Served(call.block, requested) then
        if call.fault.Some? then Reply(Faulted(call.fault.value), storage, 0)
        else Reply(Returned(Load(storage, requested % WINDOW)), storage, GAS_RETRIEVE_SUCCESS_BRANCH)
      else if requested < call.block then Reply(Reverted, storage, GAS_BLOCK_TOO_OLD_BRANCH)
      else Reply(Reverted, storage, GAS_INVALID_BLOCK_BRANCH)
  }

  function Answered(storage: Storage, call: Call): Reply {
    if call.caller == SYSTEM_ADDRESS then Submitted(storage, call) else Retrieved(storage, call)
  }

  // ---------------------------------------------------------------- the contract

  class HistoryContract {
    var storage: Storage
    var fuel: nat          // fuel the contract has charged itself
    var output: seq<byte>

    constructor ()
      ensures storage == map[] && fuel == 0 && output == []
    {
      storage, fuel, output := map[], 0, [];
    }

    // How `result` and the state changes since `before` look to the caller.
    ghost predicate Did(reply: Reply, result: Result<(), ExitCode>, beforeFuel: nat, beforeOutput: seq<byte>)
      reads this
    {
      && storage == reply.storage
      && fuel == beforeFuel + reply.gas * 20
      && match reply.outcome
         case Stopped => result == Ok(()) && output == beforeOutput
         case Returned(word) => result == Ok(()) && output == beforeOutput + ToBe(word, 32)
         case Reverted => result == Err(Panic) && output == beforeOutput
         case Faulted(code) => result == Err(Fault(code)) && output == beforeOutput
    }

    method ChargeAndPanic(gas: nat) returns (result: Result<(), ExitCode>)
      modifies this`fuel
      ensures result == Err(Panic) && fuel == old(fuel) + gas * FUEL_DENOM_RATE
    {
      fuel := fuel + gas * FUEL_DENOM_RATE;
      result := Err(Panic);
    }

    method Submit(call: Call) returns (result: Result<(), ExitCode>)
      modifies this
      ensures Did(Submitted(old(storage), call), result, old(fuel), old(output))
    {
      if |call.input| != 32 {
        result := ChargeAndPanic(GAS_BAD_BLOCK_INPUT_BRANCH);
        return;
      }
      var hashValue := FromBe(call.input);
      var blockNumber := call.block;
      if blockNumber == 0 {
        result := ChargeAndPanic(GAS_INVALID_BLOCK_BRANCH);
        return;
      }
      var storageSlot := (blockNumber - 1) % WINDOW;
      if call.fault.Some? {
        return Err(Fault(call.fault.value));
      }
      storage := storage[storageSlot := hashValue];
      fuel := fuel + GAS_SUBMIT_SUCCESS_BRANCH * FUEL_DENOM_RATE;
      result := Ok(());
    }

    method Retrieve(call: Call) returns (result: Result<(), ExitCode>)
      modifies this`fuel, this`output
      ensures Did(Retrieved(storage, call), result, old(fuel), old(output))
    {
      if |call.input| != 32 {
        result := ChargeAndPanic(GAS_BAD_BLOCK_INPUT_BRANCH);
        return;
      }
      var requestedBn := FromBe(call.input);
      var blockNumber := call.block;
      if blockNumber == 0 {
        result := ChargeAndPanic(GAS_INVALID_BLOCK_BRANCH);
        return;
      }
      var blockNumberPrev := blockNumber - 1;
      if requestedBn > blockNumberPrev {
        result := ChargeAndPanic(GAS_INVALID_BLOCK_BRANCH);
        return;
      }
      var blockAge := blockNumber - requestedBn;
      if blockAge > WINDOW {
        result := ChargeAndPanic(GAS_BLOCK_TOO_OLD_BRANCH);
        return;
      }
      var slot := requestedBn % WINDOW;
      if call.fault.Some? {
        return Err(Fault(call.fault.value));
      }
      var hash := Load(storage, slot);
      fuel := fuel + GAS_RETRIEVE_SUCCESS_BRANCH * FUEL_DENOM_RATE;
      output := output + ToBe(hash, 32);
      result := Ok(());
    }

    method Entrypoint(call: Call) returns (result: Result<(), ExitCode>)
      modifies this
      ensures Did(Answered(old(storage), call), result, old(fuel), old(output))
    {
      if call.caller == SYSTEM_ADDRESS {
        result := Submit(call);
      } else {
        result := Retrieve(call);
      }
    }
  }

  /** A call whose storage access fails changes nothing, charges nothing for it and passes the code on. */
  lemma FaultsLeaveNoTrace(storage: Storage, call: Call)
    requires call.fault.Some?
    ensures var reply := Answered(storage, call);
            && reply.storage == storage
            && (reply.outcome.Reverted? || (reply.outcome == Faulted(call.fault.value) && reply.gas == 0))
            && (reply.outcome.Reverted? <==> Answered(storage, call.(fault := None)).outcome.Reverted?)
  {}

  // ---------------------------------------------------------------- runs

  /** A chain: the system submits the parent hash as each block opens; users call in between. */
  datatype Event = NewBlock(hash: seq<byte>) | UserCall(caller: nat, input: seq<byte>)

  datatype Chain = Chain(block: nat, storage: Storage)

  ghost predicate Valid(e: Event) {
    match e
    case NewBlock(hash) => |hash| == 32
    case UserCall(caller, _) => caller != SYSTEM_ADDRESS
  }

  function After(c: Chain, e: Event): Chain {
    match e
    case NewBlock(hash) =>
      Chain(c.block + 1, Answered(c.storage, Call(SYSTEM_ADDRESS, c.block + 1, hash, None)).storage)
    case UserCall(caller, input) =>
      Chain(c.block, Answered(c.storage, Call(caller, c.block, input, None)).storage)
  }

  function RunChain(c: Chain, events: seq<Event>): Chain
    decreases |events|
  {
    if events == [] then c else After(RunChain(c, events[..|events| - 1]), events[|events| - 1])
  }

  function Recorded(e: Event): seq<nat> {
    if e.NewBlock? then [FromBe(e.hash)] else []
  }

  // The unbounded history: the hashes submitted, in order.
  function Hashes(events: seq<Event>): seq<nat> {
    if events == [] then [] else Hashes(events[..|events| - 1]) + Recorded(events[|events| - 1])
  }

  // Hash of block `b` as an archive that started at block `first` knows it.
  function Archived(first: nat, hashes: seq<nat>, b: nat): nat {
    if first <= b < first + |hashes| then hashes[b - first] else 0
  }

  // The ring holds the archive's last WINDOW blocks.
  ghost predicate RingAgrees(c: Chain, first: nat, hashes: seq<nat>) {
    && c.block == first + |hashes|
    && forall b: nat {:trigger Served(c.block, b)} ::
         Served(c.block, b) ==> Load(c.storage, b % WINDOW) == Archived(first, hashes, b)
  }

  // Blocks less than a window apart use different slots.
  lemma DistinctSlots(a: nat, b: nat)
    requires a < b < a + WINDOW
    ensures a % WINDOW != b % WINDOW
  {
    assert a == WINDOW * (a / WINDOW) + a % WINDOW;
    assert b == WINDOW * (b / WINDOW) + b % WINDOW;
  }

  lemma StepAgrees(c: Chain, first: nat, hashes: seq<nat>, e: Event)
    requires RingAgrees(c, first, hashes) && Valid(e)
    ensures RingAgrees(After(c, e), first, hashes + Recorded(e))
  {
    if e.NewBlock? {
      var c', hashes' := After(c, e), hashes + Recorded(e);
      forall b: nat | Served(c'.block, b)
        ensures Load(c'.storage, b % WINDOW) == Archived(first, hashes', b)
      {
        if b != c.block {
          DistinctSlots(b, c.block);
          assert Served(c.block, b);
        }
      }
    } else {
      assert hashes + [] == hashes;
    }
  }

  lemma {:induction false} RunAgrees(first: nat, events: seq<Event>)
    requires forall i :: 0 <= i < |events| ==> Valid(events[i])
    ensures RingAgrees(RunChain(Chain(first, map[]), events), first, Hashes(events))
    decreases |events|
  {
    if events == [] {
    } else {
      var init := events[..|events| - 1];
      RunAgrees(first, init);
      StepAgrees(RunChain(Chain(first, map[]), init), first, Hashes(init), events[|events| - 1]);
    }
  }

  /**
   After any run from an empty ring at block `first`, a user who asks in block n for block b gets an
   answer exactly when n - 8191 <= b <= n - 1, and the answer is the hash recorded for b, or zero if
   b is older than the contract.
   */
  lemma {:induction false} RingIsTheHistory(first: nat, events: seq<Event>, caller: nat, input: seq<byte>)
    requires caller != SYSTEM_ADDRESS && |input| == 32
    requires forall i :: 0 <= i < |events| ==> Valid(events[i])
    ensures var c := RunChain(Chain(first, map[]), events);
            var b := FromBe(input);
            var reply := Answered(c.storage, Call(caller, c.block, input, None));
            && c.block == first + |Hashes(events)|
            && reply.storage == c.storage
            && reply.outcome ==
               (if c.block - WINDOW <= b <= c.block - 1
                then Returned(Archived(first, Hashes(events), b)) else Reverted)
  {
    RunAgrees(first, events);
  }

  // The bytes the system submitted, in order.
  function Submissions(events: seq<Event>): seq<seq<byte>> {
    if events == [] then []
    else if events[|events| - 1].NewBlock? then Submissions(events[..|events| - 1]) + [events[|events| - 1].hash]
    else Submissions(events[..|events| - 1])
  }

  lemma {:induction false} HashesAreSubmissions(events: seq<Event>)
    requires forall i :: 0 <= i < |events| ==> Valid(events[i])
    ensures |Hashes(events)| == |Submissions(events)|
    ensures forall i :: 0 <= i < |Hashes(events)| ==>
      |Submissions(events)[i]| == 32 && Hashes(events)[i] == FromBe(Submissions(events)[i])
  {
    if events == [] {
    } else {
      HashesAreSubmissions(events[..|events| - 1]);
      assert Valid(events[|events| - 1]);
    }
  }

  /**
   After any run, a user who asks for a block of the window that the contract has seen gets back the
   very 32 bytes that the system submitted for it.
   */
  lemma {:induction false} AnswerIsTheSubmittedHash(first: nat, events: seq<Event>, caller: nat, input: seq<byte>)
    requires caller != SYSTEM_ADDRESS && |input| == 32
    requires forall i :: 0 <= i < |events| ==> Valid(events[i])
    requires first <= FromBe(input) && Served(first + |Submissions(events)|, FromBe(input))
    ensures var c := RunChain(Chain(first, map[]), events);
            var reply := Answered(c.storage, Call(caller, c.block, input, None));
            && reply.outcome.Returned?
            && ToBe(reply.outcome.word, 32) == Submissions(events)[FromBe(input) - first]
  {
    RingIsTheHistory(first, events, caller, input);
    HashesAreSubmissions(events);
    BeInverse(Submissions(events)[FromBe(input) - first]);
  }
}
