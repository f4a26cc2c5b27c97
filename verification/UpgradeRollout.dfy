/**
 The runtime-upgrade tool: load the modules of a release, check them, and then walk the list of
 contracts, sending one upgrade transaction for each contract whose on-chain module differs and
 verifying the result. Anything may go wrong at any point; the operator then runs the tool again.

 The chain is a map of codes. What the network does during one visit of the loop is a `Visit`,
 arbitrary except that a transaction changes only the code of its own target. A transaction that was
 sent but never confirmed stays outstanding: at any later time it may still install the module it
 carries.
 */
module UpgradeRollout {
  import opened Bytes
  import opened Prelude

  type Address = nat

  type Code = seq<byte>

  datatype Module = Module(body: seq<byte>, hint: seq<byte>)

  type Release = map<Address, Module>

  type Chain = map<Address, Code>

  // The module decoder and the hash function, used as black boxes.
  datatype Tools = Tools(decode: Code -> Option<Module>, hash: seq<byte> -> nat)

  const WASM_MAX_CODE_SIZE := 0x10_0000

  // ---------------------------------------------------------------- loading and preflight

  datatype LoadError = NotInRelease(c: Address) | NoBytecode(c: Address) | Malformed(c: Address) | EmptyHint(c: Address)

  // The release has a module for `c` with code in it.
  predicate Loadable(tools: Tools, genesis: map<Address, Option<Code>>, c: Address) {
    && c in genesis && genesis[c].Some?
    && tools.decode(genesis[c].value).Some? && tools.decode(genesis[c].value).value.hint != []
  }

  // Error `e` names contract `c` and what is wrong with it.
  predicate Diagnosed(tools: Tools, genesis: map<Address, Option<Code>>, c: Address, e: LoadError) {
    match e
    case NotInRelease(d) => d == c && c !in genesis
    case NoBytecode(d) => d == c && c in genesis && genesis[c].None?
    case Malformed(d) => d == c && c in genesis && genesis[c].Some? && tools.decode(genesis[c].value).None?
    case EmptyHint(d) =>
      && d == c && c in genesis && genesis[c].Some?
      && tools.decode(genesis[c].value).Some? && tools.decode(genesis[c].value).value.hint == []
  }

  /** Loading succeeds exactly when every selected contract can be loaded; the first that cannot is named. */
  method LoadReleaseModules(tools: Tools, genesis: map<Address, Option<Code>>, list: seq<Address>)
    returns (r: Result<Release, LoadError>)
    ensures r.Ok? <==> forall c :: c in list ==> Loadable(tools, genesis, c)
    ensures r.Ok? ==> r.value.Keys == set c | c in list
    ensures r.Ok? ==> forall c :: c in list ==> genesis[c].Some? && tools.decode(genesis[c].value) == Some(r.value[c])
    ensures r.Err? ==> exists i :: 0 <= i < |list| && Diagnosed(tools, genesis, list[i], r.error)
                                && forall j :: 0 <= j < i ==> Loadable(tools, genesis, list[j])
  {
    var modules: Release := map[];
    for i := 0 to |list|
      invariant modules.Keys == set c | c in list[..i]
      invariant forall j :: 0 <= j < i ==> Loadable(tools, genesis, list[j])
      invariant forall c :: c in modules ==>
        c in genesis && genesis[c].Some? && tools.decode(genesis[c].value) == Some(modules[c]) && modules[c].hint != []
    {
      var addr := list[i];
      assert addr in list;
      if addr !in genesis {
        return Err(NotInRelease(addr));
      }
      var code := genesis[addr];
      if code.None? {
        return Err(NoBytecode(addr));
      }
      var decoded := tools.decode(code.value);
      if decoded.None? {
        return Err(Malformed(addr));
      }
      if decoded.value.hint == [] {
        return Err(EmptyHint(addr));
      }
      modules := modules[addr := decoded.value];
      assert list[..i + 1] == list[..i] + [addr];
    }
    assert list[..|list|] == list;
    r := Ok(modules);
  }

  predicate Shippable(release: Release, c: Address) {
    c in release && 0 < |release[c].hint| < 1024 * 1024
  }

  /** Preflight accepts exactly the lists whose every contract is present, non-empty and below 1 MiB. */
  method PreflightSelectedModules(release: Release, list: seq<Address>) returns (ok: bool)
    ensures ok <==> forall c :: c in list ==> Shippable(release, c)
  {
    for i := 0 to |list|
      invariant forall j :: 0 <= j < i ==> Shippable(release, list[j])
    {
      var c := list[i];
      assert c in list;
      if c !in release || release[c].hint == [] || |release[c].hint| >= WASM_MAX_CODE_SIZE {
        return false;
      }
    }
    ok := true;
  }

  // ---------------------------------------------------------------- one visit of the loop

  datatype Transmission =
    | Refused
    | NoReceipt(code: Code)
    | Mined(txHash: nat, status: Option<nat>, code: Code)

  datatype Arrival = Arrival(target: Address, code: Code)

  // `landed` and `landedLater` are the outstanding transactions that take effect before the contract
  // is read and before it is read back.
  datatype Visit = Visit(
    landed: seq<Arrival>, readFails: bool, signFails: bool, transmission: Transmission,
    landedLater: seq<Arrival>, rereadFails: bool)

  datatype Verb = UpToDate | Failed | RawTxPrinted | VerificationFailed | Upgraded

  datatype Entry = Entry(
    target: Address, expected: nat, txHash: Option<nat>, receipt: Option<nat>, verified: Option<nat>, verb: Verb)

  // `Panicked` is the lookup of a contract that is not in the release.
  datatype Stop = Panicked | ReadError | DecodeError | SendError | Mismatch

  // `sent` records the transactions handed to the network, `pending` those that were not confirmed,
  // `stop` an early return.
  datatype Progress = Progress(
    chain: Chain, pending: set<Address>, manifest: seq<Entry>, sent: seq<Address>, stop: Option<Stop>)

  function CodeAt(chain: Chain, c: Address): Code {
    if c in chain then chain[c] else []
  }

  predicate Matches(tools: Tools, chain: Chain, release: Release, c: Address) {
    c in release && tools.decode(CodeAt(chain, c)) == Some(release[c])
  }

  function ReceiptSuccessStatus(status: Option<nat>): Result<nat, ()> {
    if status == Some(1) then Ok(1) else Err(())
  }

  // The chain once the network has dealt with a transaction for `c`.
  function Delivered(chain: Chain, c: Address, t: Transmission): Chain {
    if t.Refused? then chain else chain[c := t.code]
  }

  // Outstanding transactions that arrive, one after the other, install the release's modules.
  function Land(tools: Tools, release: Release, pending: set<Address>, chain: Chain, landed: seq<Arrival>): Chain
    decreases |landed|
  {
    if landed == [] then chain
    else
      var before, last := Land(tools, release, pending, chain, landed[..|landed| - 1]), landed[|landed| - 1];
      if last.target in pending && last.target in release && tools.decode(last.code) == Some(release[last.target])
      then before[last.target := last.code] else before
  }

  function Outstanding(pending: set<Address>, c: Address, t: Transmission): set<Address> {
    if t.Mined? then pending else pending + {c}
  }

  function Aborted(p: Progress, stop: Stop): Progress {
    p.(stop := Some(stop))
  }

  function Logged(p: Progress, e: Entry): Progress {
    p.(manifest := p.manifest + [e])
  }

  function VisitContract(tools: Tools, release: Release, printRaw: bool, p: Progress, c: Address, v: Visit): Progress {
    if c !in release then Aborted(p, Panicked)
    else VisitSelected(tools, release, printRaw,
                       p.(chain := Land(tools, release, p.pending, p.chain, v.landed)), c, v)
  }

  function VisitSelected(tools: Tools, release: Release, printRaw: bool, p: Progress, c: Address, v: Visit): Progress
    requires c in release
  {
    var expected := tools.hash(release[c].hint);
    if v.readFails then Aborted(p, ReadError)
    else
      var before := tools.decode(CodeAt(p.chain, c));
      if before.None? then Aborted(p, DecodeError)
      else if before.value == release[c] then
        Logged(p, Entry(c, expected, None, None, Some(tools.hash(before.value.hint)), UpToDate))
      else if printRaw then
        if v.signFails then Aborted(Logged(p, Entry(c, expected, None, None, None, Failed)), SendError)
        else Logged(p, Entry(c, expected, None, None, None, RawTxPrinted))
      else Transact(tools, release, p, c, v)
  }

  // The network's part of a transaction.
  function Sent(tools: Tools, release: Release, p: Progress, c: Address, v: Visit): Progress {
    var pending := Outstanding(p.pending, c, v.transmission);
    p.(sent := p.sent + [c], pending := pending,
       chain := Land(tools, release, pending, Delivered(p.chain, c, v.transmission), v.landedLater))
  }

  // Send, wait for the receipt, read the code back and compare.
  function Transact(tools: Tools, release: Release, p: Progress, c: Address, v: Visit): Progress
    requires c in release
  {
    var expected := tools.hash(release[c].hint);
    var t, q := v.transmission, Sent(tools, release, p, c, v);
    if !t.Mined? || ReceiptSuccessStatus(t.status).Err? then
      Aborted(Logged(q, Entry(c, expected, None, None, None, Failed)), SendError)
    else if v.rereadFails then Aborted(q, ReadError)
    else
      var after := tools.decode(CodeAt(q.chain, c));
      if after.None? then Aborted(q, DecodeError)
      else
        var verified := Some(tools.hash(after.value.hint));
        if after.value != release[c] then
          Aborted(Logged(q, Entry(c, expected, Some(t.txHash), Some(1), verified, VerificationFailed)), Mismatch)
        else
          Logged(q, Entry(c, expected, Some(t.txHash), Some(1), verified, Upgraded))
  }

  /** One run of the tool by an operator, against a network that behaves like `world`. */
  datatype Attempt = Attempt(list: seq<Address>, printRaw: bool, world: nat -> Visit)

  // The first `k` contracts of the list, or as many as it takes to stop early.
  function RollOut(tools: Tools, release: Release, chain: Chain, pending: set<Address>, a: Attempt, k: nat): Progress
    requires k <= |a.list|
    decreases k
  {
    if k == 0 then Progress(chain, pending, [], [], None)
    else
      var p := RollOut(tools, release, chain, pending, a, k - 1);
      if p.stop.Some? then p else VisitContract(tools, release, a.printRaw, p, a.list[k - 1], a.world(k - 1))
  }

  lemma RollOutStep(tools: Tools, release: Release, chain: Chain, pending: set<Address>, a: Attempt, k: nat)
    requires k < |a.list| && RollOut(tools, release, chain, pending, a, k).stop.None?
    ensures RollOut(tools, release, chain, pending, a, k + 1)
         == VisitContract(tools, release, a.printRaw, RollOut(tools, release, chain, pending, a, k),
                          a.list[k], a.world(k))
  {}

  function Outcome(tools: Tools, release: Release, chain: Chain, pending: set<Address>, a: Attempt): Progress {
    RollOut(tools, release, chain, pending, a, |a.list|)
  }

  /** The loop of `run_upgrade_transactions`. */
  method RunUpgradeTransactions(tools: Tools, release: Release, chain: Chain, pending: set<Address>, a: Attempt)
    returns (p: Progress)
    ensures p == Outcome(tools, release, chain, pending, a)
  {
    p := Progress(chain, pending, [], [], None);
    var i := 0;
    while i < |a.list|
      invariant 0 <= i <= |a.list|
      invariant p == RollOut(tools, release, chain, pending, a, i) && p.stop.None?
    {
      p := NextContract(tools, release, chain, pending, a, i, p);
      i := i + 1;
      if p.stop.Some? {
        Stopped(tools, release, chain, pending, a, i, |a.list|);
        return;
      }
    }
  }

  method NextContract(tools: Tools, release: Release, ghost chain: Chain, ghost pending: set<Address>, a: Attempt,
                      i: nat, p0: Progress) returns (p: Progress)
    requires i < |a.list| && p0 == RollOut(tools, release, chain, pending, a, i) && p0.stop.None?
    ensures p == RollOut(tools, release, chain, pending, a, i + 1)
  {
    RollOutStep(tools, release, chain, pending, a, i);
    p := StepLoop(tools, release, a.printRaw, p0, a.list[i], a.world(i));
  }

  // One iteration, statement by statement.
  method StepLoop(tools: Tools, release: Release, printRaw: bool, p0: Progress, c: Address, v: Visit)
    returns (p: Progress)
    requires p0.stop.None?
    ensures p == VisitContract(tools, release, printRaw, p0, c, v)
  {
    p := p0;
    if c !in release {
      return p.(stop := Some(Panicked));
    }
    var newRwasm := release[c];
    var expected := tools.hash(newRwasm.hint);
    p := p.(chain := Land(tools, release, p.pending, p.chain, v.landed));
    if v.readFails {
      return p.(stop := Some(ReadError));
    }
    var onchain := tools.decode(CodeAt(p.chain, c));
    if onchain.None? {
      return p.(stop := Some(DecodeError));
    }
    if onchain.value == newRwasm {
      var entry := Entry(c, expected, None, None, Some(tools.hash(onchain.value.hint)), UpToDate);
      return p.(manifest := p.manifest + [entry]);
    }
    if printRaw {
      if v.signFails {
        return p.(manifest := p.manifest + [Entry(c, expected, None, None, None, Failed)], stop := Some(SendError));
      }
      return p.(manifest := p.manifest + [Entry(c, expected, None, None, None, RawTxPrinted)]);
    }
    var t := v.transmission;
    p := Sent(tools, release, p, c, v);
    if !t.Mined? || ReceiptSuccessStatus(t.status).Err? {
      return p.(manifest := p.manifest + [Entry(c, expected, None, None, None, Failed)], stop := Some(SendError));
    }
    if v.rereadFails {
      return p.(stop := Some(ReadError));
    }
    onchain := tools.decode(CodeAt(p.chain, c));
    if onchain.None? {
      return p.(stop := Some(DecodeError));
    }
    var verified := Some(tools.hash(onchain.value.hint));
    if onchain.value != newRwasm {
      var entry := Entry(c, expected, Some(t.txHash), Some(1), verified, VerificationFailed);
      return p.(manifest := p.manifest + [entry], stop := Some(Mismatch));
    }
    p := p.(manifest := p.manifest + [Entry(c, expected, Some(t.txHash), Some(1), verified, Upgraded)]);
  }

  lemma {:induction false} Stopped(tools: Tools, release: Release, chain: Chain, pending: set<Address>, a: Attempt,
                                   i: nat, k: nat)
    requires i <= k <= |a.list| && RollOut(tools, release, chain, pending, a, i).stop.Some?
    ensures RollOut(tools, release, chain, pending, a, k) == RollOut(tools, release, chain, pending, a, i)
    decreases k
  {
    if i == k {
    } else {
      Stopped(tools, release, chain, pending, a, i, k - 1);
    }
  }

  // ---------------------------------------------------------------- what one visit does

  lemma {:induction false} LandKeeps(tools: Tools, release: Release, pending: set<Address>, chain: Chain,
                                     landed: seq<Arrival>, c: Address)
    ensures var after := Land(tools, release, pending, chain, landed);
            && (Matches(tools, chain, release, c) ==> Matches(tools, after, release, c))
            && (c !in pending ==> CodeAt(after, c) == CodeAt(chain, c))
    decreases |landed|
  {
    if landed == [] {
    } else {
      LandKeeps(tools, release, pending, chain, landed[..|landed| - 1], c);
    }
  }

  // A visit of `c` that took `p` to `q` sends only a contract that does not match, loses no match and
  // changes nothing but its target and what was outstanding.
  ghost predicate Careful(tools: Tools, release: Release, p: Progress, q: Progress, c: Address) {
    && (forall d :: Matches(tools, p.chain, release, d) ==> Matches(tools, q.chain, release, d))
    && (forall d :: d !in p.pending && (d != c || q.sent == p.sent) ==> CodeAt(q.chain, d) == CodeAt(p.chain, d))
    && (q.sent == p.sent ==> q.pending == p.pending)
    && (q.sent != p.sent ==>
         && q.sent == p.sent + [c] && !Matches(tools, p.chain, release, c)
         && (q.pending == p.pending || q.pending == p.pending + {c}))
  }

  lemma SentIsCareful(tools: Tools, release: Release, p: Progress, c: Address, v: Visit)
    requires !Matches(tools, p.chain, release, c)
    ensures Careful(tools, release, p, Sent(tools, release, p, c, v), c)
  {
    var q, pending := Sent(tools, release, p, c, v), Outstanding(p.pending, c, v.transmission);
    var delivered := Delivered(p.chain, c, v.transmission);
    forall d ensures Matches(tools, p.chain, release, d) ==> Matches(tools, q.chain, release, d) {
      LandKeeps(tools, release, pending, delivered, v.landedLater, d);
    }
    forall d | d !in p.pending && d != c ensures CodeAt(q.chain, d) == CodeAt(p.chain, d) {
      LandKeeps(tools, release, pending, delivered, v.landedLater, d);
    }
    assert q.sent[|p.sent|] == c;
  }

  lemma SelectedIsCareful(tools: Tools, release: Release, printRaw: bool, p: Progress, c: Address, v: Visit)
    requires c in release
    ensures var q := VisitSelected(tools, release, printRaw, p, c, v);
            Careful(tools, release, p, q, c) && (printRaw ==> q.sent == p.sent)
  {
    if !Matches(tools, p.chain, release, c) { SentIsCareful(tools, release, p, c, v); }
  }

  /** One visit, whatever the network does. */
  lemma VisitIsCareful(tools: Tools, release: Release, printRaw: bool, p: Progress, c: Address, v: Visit)
    ensures var q := VisitContract(tools, release, printRaw, p, c, v);
            Careful(tools, release, p, q, c) && (printRaw ==> q.sent == p.sent)
  {
    if c in release {
      var p0 := p.(chain := Land(tools, release, p.pending, p.chain, v.landed));
      forall d ensures Matches(tools, p.chain, release, d) ==> Matches(tools, p0.chain, release, d) {
        LandKeeps(tools, release, p.pending, p.chain, v.landed, d);
      }
      forall d | d !in p.pending ensures CodeAt(p0.chain, d) == CodeAt(p.chain, d) {
        LandKeeps(tools, release, p.pending, p.chain, v.landed, d);
      }
      SelectedIsCareful(tools, release, printRaw, p0, c, v);
    }
  }

  predicate Good(e: Entry) {
    (e.verb.UpToDate? || e.verb.Upgraded?) && e.verified == Some(e.expected)
  }

  /**
   A visit logs at most one entry, for its contract; without one the run has stopped, and in a sending
   run that goes on the entry is good and the contract matches the release.
   */
  lemma VisitManifest(tools: Tools, release: Release, printRaw: bool, p: Progress, c: Address, v: Visit)
    requires p.stop.None?
    ensures var q := VisitContract(tools, release, printRaw, p, c, v);
            && (q.manifest == p.manifest ==> q.stop.Some?)
            && (q.manifest != p.manifest ==>
                 exists e :: q.manifest == p.manifest + [e] && e.target == c && (printRaw || q.stop.Some? || Good(e)))
            && (q.stop.None? && !printRaw ==> Matches(tools, q.chain, release, c))
  {
    var q := VisitContract(tools, release, printRaw, p, c, v);
    if q.manifest != p.manifest {
      var e := q.manifest[|p.manifest|];
      assert q.manifest == p.manifest + [e];
    }
  }

  // ---------------------------------------------------------------- what a visit achieves

  // What is on the chain for `c` when the visit reads it.
  function Found(tools: Tools, release: Release, p: Progress, c: Address, v: Visit): Option<Module> {
    tools.decode(CodeAt(Land(tools, release, p.pending, p.chain, v.landed), c))
  }

  // The transaction is mined successfully and installs the release's module; all reads work.
  predicate Favourable(tools: Tools, release: Release, c: Address, v: Visit) {
    && c in release && !v.readFails && !v.rereadFails
    && v.transmission.Mined? && v.transmission.status == Some(1)
    && tools.decode(v.transmission.code) == Some(release[c])
  }

  /** Against a network that works, a visit upgrades a contract that differs and goes on. */
  lemma WorkingVisitUpgrades(tools: Tools, release: Release, p: Progress, c: Address, v: Visit)
    requires p.stop.None? && Favourable(tools, release, c, v)
    requires Found(tools, release, p, c, v).Some? && Found(tools, release, p, c, v).value != release[c]
    ensures var q := VisitContract(tools, release, false, p, c, v);
            var hash := tools.hash(release[c].hint);
            && q.stop.None? && q.sent == p.sent + [c] && Matches(tools, q.chain, release, c)
            && q.manifest == p.manifest + [Entry(c, hash, Some(v.transmission.txHash), Some(1), Some(hash), Upgraded)]
  {
    var p0 := p.(chain := Land(tools, release, p.pending, p.chain, v.landed));
    LandKeeps(tools, release, Outstanding(p0.pending, c, v.transmission),
              Delivered(p0.chain, c, v.transmission), v.landedLater, c);
  }

  /** A transaction that is refused, not confirmed or not successful stops the run with a failed entry. */
  lemma FailedTransactionStops(tools: Tools, release: Release, p: Progress, c: Address, v: Visit)
    requires p.stop.None? && c in release && !v.readFails
    requires Found(tools, release, p, c, v).Some? && Found(tools, release, p, c, v).value != release[c]
    requires v.transmission.Mined? ==> v.transmission.status != Some(1)
    ensures var q := VisitContract(tools, release, false, p, c, v);
            && q.stop == Some(SendError) && q.sent == p.sent + [c]
            && q.manifest == p.manifest + [Entry(c, tools.hash(release[c].hint), None, None, None, Failed)]
            && (!v.transmission.Mined? ==> c in q.pending)
  {}

  /**
   After a successful transaction the run goes on exactly when what is read back is the release's module;
   the entry carries the hash of what was read.
   */
  lemma ReadBackDecides(tools: Tools, release: Release, p: Progress, c: Address, v: Visit)
    requires p.stop.None? && c in release && !v.readFails
    requires Found(tools, release, p, c, v).Some? && Found(tools, release, p, c, v).value != release[c]
    requires v.transmission.Mined? && v.transmission.status == Some(1)
    ensures var q := VisitContract(tools, release, false, p, c, v);
            var expected, after := tools.hash(release[c].hint), tools.decode(CodeAt(q.chain, c));
            && q.sent == p.sent + [c]
            && if v.rereadFails then q.stop == Some(ReadError) && q.manifest == p.manifest
               else if after.None? then q.stop == Some(DecodeError) && q.manifest == p.manifest
               else
                 var right := after.value == release[c];
                 && q.stop == (if right then None else Some(Mismatch))
                 && q.manifest == p.manifest + [
                      Entry(c, expected, Some(v.transmission.txHash), Some(1), Some(tools.hash(after.value.hint)),
                            if right then Upgraded else VerificationFailed)]
  {}

  /**
   The visits that send nothing: a contract that matches is up to date; one that differs is only printed
   in a printing run; one that cannot be read or decoded stops the run without an entry.
   */
  lemma VisitWithoutSending(tools: Tools, release: Release, printRaw: bool, p: Progress, c: Address, v: Visit)
    requires p.stop.None? && c in release
    ensures var q, found := VisitContract(tools, release, printRaw, p, c, v), Found(tools, release, p, c, v);
            var hash := tools.hash(release[c].hint);
            if v.readFails then q.stop == Some(ReadError) && q.manifest == p.manifest && q.sent == p.sent
            else if found.None? then q.stop == Some(DecodeError) && q.manifest == p.manifest && q.sent == p.sent
            else if found.value == release[c] then
              && q.stop.None? && q.sent == p.sent
              && q.manifest == p.manifest + [Entry(c, hash, None, None, Some(hash), UpToDate)]
            else printRaw ==>
              && q.sent == p.sent && (q.stop.None? <==> !v.signFails)
              && q.manifest == p.manifest + [Entry(c, hash, None, None, None,
                                                   if v.signFails then Failed else RawTxPrinted)]
  {}

  // ---------------------------------------------------------------- what one run keeps

  // After some visits of a run: no match is lost, only contracts of the list that did not match at the
  // start were sent, only those and what was outstanding changed, and a printing run sends nothing.
  ghost predicate ChainKept(tools: Tools, release: Release, chain: Chain, pending: set<Address>, a: Attempt,
                            p: Progress) {
    && (forall c :: Matches(tools, chain, release, c) ==> Matches(tools, p.chain, release, c))
    && (forall c :: c in p.sent ==> !Matches(tools, chain, release, c) && c in a.list)
    && (forall c :: c !in p.sent && c !in pending ==> CodeAt(p.chain, c) == CodeAt(chain, c))
    && pending <= p.pending
    && (forall c :: c in p.pending ==> c in pending || c in p.sent)
    && (a.printRaw ==> p.sent == [])
  }

  // The manifest follows the list, and only the last entry of a stopped run may be a bad one.
  ghost predicate ManifestKept(a: Attempt, k: nat, p: Progress)
    requires k <= |a.list|
  {
    && |p.manifest| <= k
    && (p.stop.None? ==> |p.manifest| == k)
    && (forall i :: 0 <= i < |p.manifest| ==> p.manifest[i].target == a.list[i])
    && (!a.printRaw ==>
         forall i :: 0 <= i < |p.manifest| && (p.stop.None? || i < |p.manifest| - 1) ==> Good(p.manifest[i]))
  }

  // In a sending run every contract visited so far matches.
  ghost predicate VisitedMatch(tools: Tools, release: Release, a: Attempt, k: nat, p: Progress)
    requires k <= |a.list|
  {
    p.stop.None? && !a.printRaw ==> forall i :: 0 <= i < k ==> Matches(tools, p.chain, release, a.list[i])
  }

  lemma StepChainKept(tools: Tools, release: Release, chain: Chain, pending: set<Address>, a: Attempt,
                      p: Progress, q: Progress, c: Address)
    requires c in a.list && ChainKept(tools, release, chain, pending, a, p)
    requires Careful(tools, release, p, q, c) && (a.printRaw ==> q.sent == p.sent)
    ensures ChainKept(tools, release, chain, pending, a, q)
  {
    assert forall d :: d in q.sent <==> d in p.sent || (d == c && q.sent != p.sent);
  }

  lemma StepManifestKept(tools: Tools, release: Release, a: Attempt, k: nat, p: Progress, q: Progress)
    requires 0 < k <= |a.list| && p.stop.None? && ManifestKept(a, k - 1, p)
    requires q == VisitContract(tools, release, a.printRaw, p, a.list[k - 1], a.world(k - 1))
    ensures ManifestKept(a, k, q)
  {
    VisitManifest(tools, release, a.printRaw, p, a.list[k - 1], a.world(k - 1));
    if q.manifest != p.manifest {
      var e :| q.manifest == p.manifest + [e] && e.target == a.list[k - 1] && (a.printRaw || q.stop.Some? || Good(e));
    }
  }

  lemma StepVisitedMatch(tools: Tools, release: Release, a: Attempt, k: nat, p: Progress, q: Progress)
    requires 0 < k <= |a.list| && p.stop.None? && VisitedMatch(tools, release, a, k - 1, p)
    requires q == VisitContract(tools, release, a.printRaw, p, a.list[k - 1], a.world(k - 1))
    ensures VisitedMatch(tools, release, a, k, q)
  {
    VisitManifest(tools, release, a.printRaw, p, a.list[k - 1], a.world(k - 1));
    VisitIsCareful(tools, release, a.printRaw, p, a.list[k - 1], a.world(k - 1));
    if q.stop.None? && !a.printRaw {
      forall i | 0 <= i < k - 1 ensures Matches(tools, q.chain, release, a.list[i]) {
        assert Matches(tools, p.chain, release, a.list[i]);
      }
    }
  }

  /** What every run keeps, wherever it stops. */
  lemma {:induction false} RunKeeps(tools: Tools, release: Release, chain: Chain, pending: set<Address>,
                                    a: Attempt, k: nat)
    requires k <= |a.list|
    ensures var p := RollOut(tools, release, chain, pending, a, k);
            && ChainKept(tools, release, chain, pending, a, p)
            && ManifestKept(a, k, p)
            && VisitedMatch(tools, release, a, k, p)
    decreases k
  {
    if k == 0 {
    } else {
      RunKeeps(tools, release, chain, pending, a, k - 1);
      var p := RollOut(tools, release, chain, pending, a, k - 1);
      if p.stop.None? {
        var q := RollOut(tools, release, chain, pending, a, k);
        VisitIsCareful(tools, release, a.printRaw, p, a.list[k - 1], a.world(k - 1));
        StepChainKept(tools, release, chain, pending, a, p, q, a.list[k - 1]);
        StepManifestKept(tools, release, a, k, p, q);
        StepVisitedMatch(tools, release, a, k, p, q);
      }
    }
  }

  // ---------------------------------------------------------------- a run against a network that works

  lemma {:induction false} LandDecodes(tools: Tools, release: Release, pending: set<Address>, chain: Chain,
                                       landed: seq<Arrival>, c: Address)
    requires tools.decode(CodeAt(chain, c)).Some?
    ensures tools.decode(CodeAt(Land(tools, release, pending, chain, landed), c)).Some?
    decreases |landed|
  {
    if landed == [] {
    } else {
      LandDecodes(tools, release, pending, chain, landed[..|landed| - 1], c);
    }
  }

  // A visit of `c` that works goes on, and what could be decoded still can be.
  lemma WorkingVisit(tools: Tools, release: Release, p: Progress, c: Address, v: Visit, d: Address)
    requires p.stop.None? && Favourable(tools, release, c, v)
    requires tools.decode(CodeAt(p.chain, c)).Some? && tools.decode(CodeAt(p.chain, d)).Some?
    ensures var q := VisitContract(tools, release, false, p, c, v);
            q.stop.None? && tools.decode(CodeAt(q.chain, d)).Some?
  {
    LandDecodes(tools, release, p.pending, p.chain, v.landed, c);
    LandDecodes(tools, release, p.pending, p.chain, v.landed, d);
    var p0 := p.(chain := Land(tools, release, p.pending, p.chain, v.landed));
    if Matches(tools, p0.chain, release, c) {
      VisitWithoutSending(tools, release, false, p, c, v);
    } else {
      WorkingVisitUpgrades(tools, release, p, c, v);
      LandDecodes(tools, release, Outstanding(p0.pending, c, v.transmission),
                  Delivered(p0.chain, c, v.transmission), v.landedLater, d);
    }
  }

  ghost predicate AllDecode(tools: Tools, chain: Chain, list: seq<Address>) {
    forall i :: 0 <= i < |list| ==> tools.decode(CodeAt(chain, list[i])).Some?
  }

  ghost predicate NetworkWorks(tools: Tools, release: Release, a: Attempt) {
    forall i :: 0 <= i < |a.list| ==> Favourable(tools, release, a.list[i], a.world(i))
  }

  lemma {:induction false} WorkingRun(tools: Tools, release: Release, chain: Chain, pending: set<Address>,
                                      a: Attempt, k: nat)
    requires k <= |a.list| && !a.printRaw && NetworkWorks(tools, release, a) && AllDecode(tools, chain, a.list)
    ensures var p := RollOut(tools, release, chain, pending, a, k);
            p.stop.None? && AllDecode(tools, p.chain, a.list)
    decreases k
  {
    if k == 0 {
    } else {
      WorkingRun(tools, release, chain, pending, a, k - 1);
      RollOutStep(tools, release, chain, pending, a, k - 1);
      var p, q := RollOut(tools, release, chain, pending, a, k - 1), RollOut(tools, release, chain, pending, a, k);
      forall i | 0 <= i < |a.list| ensures q.stop.None? && tools.decode(CodeAt(q.chain, a.list[i])).Some? {
        WorkingVisit(tools, release, p, a.list[k - 1], a.world(k - 1), a.list[i]);
      }
      WorkingVisit(tools, release, p, a.list[k - 1], a.world(k - 1), a.list[k - 1]);
    }
  }

  /**
   Against a network that works, on contracts whose code can be decoded, a sending run returns Ok, leaves
   every contract equal to the release, and has sent a transaction for each that differed and for which
   none was outstanding.
   */
  lemma WorkingRunSucceeds(tools: Tools, release: Release, chain: Chain, pending: set<Address>, a: Attempt)
    requires !a.printRaw && NetworkWorks(tools, release, a) && AllDecode(tools, chain, a.list)
    ensures var p := Outcome(tools, release, chain, pending, a);
            && p.stop.None?
            && (forall c :: c in a.list ==> Matches(tools, p.chain, release, c))
            && (forall c :: c in a.list && !Matches(tools, chain, release, c) && c !in pending ==> c in p.sent)
            && |p.manifest| == |a.list|
            && (forall i :: 0 <= i < |a.list| ==> p.manifest[i].target == a.list[i] && Good(p.manifest[i]))
  {
    WorkingRun(tools, release, chain, pending, a, |a.list|);
    RunKeeps(tools, release, chain, pending, a, |a.list|);
  }

  /** A run panics only at a contract that is not in the release, so never after a successful load. */
  lemma {:induction false} OnlyMissingContractsPanic(tools: Tools, release: Release, chain: Chain,
                                                     pending: set<Address>, a: Attempt, k: nat)
    requires k <= |a.list| && RollOut(tools, release, chain, pending, a, k).stop == Some(Panicked)
    ensures exists c :: c in a.list && c !in release
    decreases k
  {
    if k == 0 {
    } else {
      var p := RollOut(tools, release, chain, pending, a, k - 1);
      if p.stop.Some? {
        OnlyMissingContractsPanic(tools, release, chain, pending, a, k - 1);
      } else {
        assert a.list[k - 1] in a.list && a.list[k - 1] !in release;
      }
    }
  }

  // ---------------------------------------------------------------- sessions

  // Everything that happened over several runs.
  datatype Session = Session(chain: Chain, pending: set<Address>, sent: seq<Address>, entries: seq<Entry>)

  function RunSession(tools: Tools, release: Release, chain: Chain, attempts: seq<Attempt>): Session
    decreases |attempts|
  {
    if attempts == [] then Session(chain, {}, [], [])
    else
      var s := RunSession(tools, release, chain, attempts[..|attempts| - 1]);
      var p := Outcome(tools, release, s.chain, s.pending, attempts[|attempts| - 1]);
      Session(p.chain, p.pending, s.sent + p.sent, s.entries + p.manifest)
  }

  /**
   Once a contract matches the release it keeps matching and is never sent again, whatever runs
   follow, however they end and whatever arrives late.
   */
  lemma {:induction false} MatchedIsNeverResent(tools: Tools, release: Release, chain: Chain,
                                                attempts: seq<Attempt>, m: nat, c: Address)
    requires m <= |attempts| && Matches(tools, RunSession(tools, release, chain, attempts[..m]).chain, release, c)
    ensures var before := RunSession(tools, release, chain, attempts[..m]);
            var s := RunSession(tools, release, chain, attempts);
            && Matches(tools, s.chain, release, c)
            && before.sent <= s.sent && c !in s.sent[|before.sent|..]
    decreases |attempts|
  {
    if m == |attempts| {
      assert attempts[..m] == attempts;
    } else {
      var init, last := attempts[..|attempts| - 1], attempts[|attempts| - 1];
      assert init[..m] == attempts[..m];
      MatchedIsNeverResent(tools, release, chain, init, m, c);
      var s := RunSession(tools, release, chain, init);
      RunKeeps(tools, release, s.chain, s.pending, last, |last.list|);
    }
  }

  /**
   Any number of runs, aborted anywhere, followed by one that sends and returns Ok: every selected
   contract has the release's module, and the manifest has one good entry per contract, in order.
   */
  lemma SessionConverges(tools: Tools, release: Release, chain: Chain, attempts: seq<Attempt>)
    requires attempts != [] && !attempts[|attempts| - 1].printRaw
    requires var before := RunSession(tools, release, chain, attempts[..|attempts| - 1]);
             Outcome(tools, release, before.chain, before.pending, attempts[|attempts| - 1]).stop.None?
    ensures var before := RunSession(tools, release, chain, attempts[..|attempts| - 1]);
            var last := attempts[|attempts| - 1];
            var p := Outcome(tools, release, before.chain, before.pending, last);
            && RunSession(tools, release, chain, attempts).chain == p.chain
            && (forall c :: c in last.list ==> Matches(tools, p.chain, release, c))
            && |p.manifest| == |last.list|
            && (forall i :: 0 <= i < |last.list| ==> p.manifest[i].target == last.list[i] && Good(p.manifest[i]))
  {
    var before := RunSession(tools, release, chain, attempts[..|attempts| - 1]);
    var last := attempts[|attempts| - 1];
    RunKeeps(tools, release, before.chain, before.pending, last, |last.list|);
  }

  // A run that has only found contracts up to date.
  ghost predicate Idle(pending: set<Address>, a: Attempt, k: nat, p: Progress) {
    && p.sent == [] && p.pending == pending
    && (forall i :: 0 <= i < |p.manifest| ==> p.manifest[i].verb.UpToDate?)
    && (p.stop.None? <==> forall i :: 0 <= i < k ==> !a.world(i).readFails)
  }

  // The visit of a contract that matches.
  ghost predicate IdleStep(p: Progress, q: Progress, readFails: bool) {
    && q.sent == p.sent && q.pending == p.pending && (q.stop.None? <==> !readFails)
    && |p.manifest| <= |q.manifest| <= |p.manifest| + 1 && p.manifest <= q.manifest
    && (|q.manifest| > |p.manifest| ==> q.manifest[|p.manifest|].verb.UpToDate?)
  }

  lemma IdleVisit(tools: Tools, release: Release, printRaw: bool, p: Progress, c: Address, v: Visit)
    requires p.stop.None? && Matches(tools, p.chain, release, c)
    ensures IdleStep(p, VisitContract(tools, release, printRaw, p, c, v), v.readFails)
  {
    LandKeeps(tools, release, p.pending, p.chain, v.landed, c);
  }

  lemma StaysIdle(pending: set<Address>, a: Attempt, k: nat, p: Progress, q: Progress)
    requires k > 0 && Idle(pending, a, k - 1, p)
    requires if p.stop.Some? then q == p else IdleStep(p, q, a.world(k - 1).readFails)
    ensures Idle(pending, a, k, q)
  {}

  // The next visit of a run whose contracts all matched at the start.
  lemma NextVisitIsIdle(tools: Tools, release: Release, chain: Chain, pending: set<Address>, a: Attempt, k: nat)
    requires k < |a.list| && Matches(tools, chain, release, a.list[k])
    ensures var p := RollOut(tools, release, chain, pending, a, k);
            var q := RollOut(tools, release, chain, pending, a, k + 1);
            if p.stop.Some? then q == p else IdleStep(p, q, a.world(k).readFails)
  {
    RunKeeps(tools, release, chain, pending, a, k);
    var p := RollOut(tools, release, chain, pending, a, k);
    if p.stop.None? {
      IdleVisit(tools, release, a.printRaw, p, a.list[k], a.world(k));
      RollOutStep(tools, release, chain, pending, a, k);
    }
  }

  lemma {:induction false} IdleRun(tools: Tools, release: Release, chain: Chain, pending: set<Address>,
                                   a: Attempt, k: nat)
    requires k <= |a.list| && forall c :: c in a.list ==> Matches(tools, chain, release, c)
    ensures Idle(pending, a, k, RollOut(tools, release, chain, pending, a, k))
    decreases k
  {
    if k == 0 {
    } else {
      IdleRun(tools, release, chain, pending, a, k - 1);
      NextVisitIsIdle(tools, release, chain, pending, a, k - 1);
      StaysIdle(pending, a, k, RollOut(tools, release, chain, pending, a, k - 1),
                RollOut(tools, release, chain, pending, a, k));
    }
  }

  /**
   A further run over the same contracts sends nothing, and nothing changes but what late transactions
   install; it reports every contract as up to date and returns Ok exactly when no read of the chain
   fails.
   */
  lemma FurtherRunIsIdle(tools: Tools, release: Release, chain: Chain, pending: set<Address>,
                         first: Attempt, again: Attempt)
    requires !first.printRaw && again.list == first.list
    requires Outcome(tools, release, chain, pending, first).stop.None?
    ensures var p := Outcome(tools, release, chain, pending, first);
            var q := Outcome(tools, release, p.chain, p.pending, again);
            && q.sent == []
            && (forall c :: c !in p.pending ==> CodeAt(q.chain, c) == CodeAt(p.chain, c))
            && (forall c :: c in first.list ==> Matches(tools, q.chain, release, c))
            && (forall i :: 0 <= i < |q.manifest| ==> q.manifest[i].verb.UpToDate?)
            && (q.stop.None? <==> forall i :: 0 <= i < |first.list| ==> !again.world(i).readFails)
  {
    RunKeeps(tools, release, chain, pending, first, |first.list|);
    var p := Outcome(tools, release, chain, pending, first);
    IdleRun(tools, release, p.chain, p.pending, again, |again.list|);
    RunKeeps(tools, release, p.chain, p.pending, again, |again.list|);
  }

  // How often the entries say that `c` was upgraded.
  function Upgrades(entries: seq<Entry>, c: Address): nat {
    if entries == [] then 0
    else
      var e := entries[|entries| - 1];
      Upgrades(entries[..|entries| - 1], c) + if e.target == c && e.verb.Upgraded? then 1 else 0
  }

  lemma {:induction false} UpgradesConcat(a: seq<Entry>, b: seq<Entry>, c: Address)
    ensures Upgrades(a + b, c) == Upgrades(a, c) + Upgrades(b, c)
  {
    if b == [] {
      assert a + b == a;
    } else {
      UpgradesConcat(a, b[..|b| - 1], c);
      assert (a + b)[..|a + b| - 1] == a + b[..|b| - 1];
    }
  }

  // Only a visit that finds a mismatch and leaves a match is logged as an upgrade.
  lemma VisitUpgrades(tools: Tools, release: Release, printRaw: bool, p: Progress, d: Address, v: Visit, c: Address)
    ensures var q := VisitContract(tools, release, printRaw, p, d, v);
            && Upgrades(p.manifest, c) <= Upgrades(q.manifest, c) <= Upgrades(p.manifest, c) + 1
            && (Upgrades(q.manifest, c) > Upgrades(p.manifest, c) ==>
                 !Matches(tools, p.chain, release, c) && Matches(tools, q.chain, release, c))
  {
    var q := VisitContract(tools, release, printRaw, p, d, v);
    if q.manifest != p.manifest {
      assert q.manifest[..|q.manifest| - 1] == p.manifest;
    }
    LandKeeps(tools, release, p.pending, p.chain, v.landed, c);
  }

  ghost predicate UpgradedOnce(tools: Tools, release: Release, chain: Chain, p: Progress, c: Address) {
    && Upgrades(p.manifest, c) <= 1
    && (Upgrades(p.manifest, c) == 1 ==>
         !Matches(tools, chain, release, c) && Matches(tools, p.chain, release, c))
  }

  lemma StepUpgradesOnce(tools: Tools, release: Release, chain: Chain, p: Progress, q: Progress, c: Address)
    requires UpgradedOnce(tools, release, chain, p, c)
    requires Matches(tools, chain, release, c) ==> Matches(tools, p.chain, release, c)
    requires Matches(tools, p.chain, release, c) ==> Matches(tools, q.chain, release, c)
    requires Upgrades(p.manifest, c) <= Upgrades(q.manifest, c) <= Upgrades(p.manifest, c) + 1
    requires Upgrades(q.manifest, c) > Upgrades(p.manifest, c) ==>
      !Matches(tools, p.chain, release, c) && Matches(tools, q.chain, release, c)
    ensures UpgradedOnce(tools, release, chain, q, c)
  {}

  lemma {:induction false} RunUpgradesOnce(tools: Tools, release: Release, chain: Chain, pending: set<Address>,
                                           a: Attempt, k: nat, c: Address)
    requires k <= |a.list|
    ensures UpgradedOnce(tools, release, chain, RollOut(tools, release, chain, pending, a, k), c)
    decreases k
  {
    if k == 0 {
    } else {
      RunUpgradesOnce(tools, release, chain, pending, a, k - 1, c);
      RunKeeps(tools, release, chain, pending, a, k - 1);
      var p := RollOut(tools, release, chain, pending, a, k - 1);
      if p.stop.None? {
        VisitUpgrades(tools, release, a.printRaw, p, a.list[k - 1], a.world(k - 1), c);
        VisitIsCareful(tools, release, a.printRaw, p, a.list[k - 1], a.world(k - 1));
        RollOutStep(tools, release, chain, pending, a, k - 1);
        StepUpgradesOnce(tools, release, chain, p, RollOut(tools, release, chain, pending, a, k), c);
      }
    }
  }

  /** Over any session each contract is reported as upgraded at most once. */
  lemma {:induction false} UpgradedAtMostOnce(tools: Tools, release: Release, chain: Chain,
                                              attempts: seq<Attempt>, c: Address)
    ensures var s := RunSession(tools, release, chain, attempts);
            && Upgrades(s.entries, c) <= 1
            && (Upgrades(s.entries, c) == 1 ==> Matches(tools, s.chain, release, c))
    decreases |attempts|
  {
    if attempts == [] {
    } else {
      var last := attempts[|attempts| - 1];
      UpgradedAtMostOnce(tools, release, chain, attempts[..|attempts| - 1], c);
      var s := RunSession(tools, release, chain, attempts[..|attempts| - 1]);
      var p := Outcome(tools, release, s.chain, s.pending, last);
      RunUpgradesOnce(tools, release, s.chain, s.pending, last, |last.list|, c);
      RunKeeps(tools, release, s.chain, s.pending, last, |last.list|);
      UpgradesConcat(s.entries, p.manifest, c);
    }
  }
}
