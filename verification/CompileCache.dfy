/**
 The memoised compilation of the genesis contracts: each contract is compiled once per pair of
 Wasm hash and compiler-configuration fingerprint, and every address gets the cached artifact.

 The method is specified by what the compiler gives for the first entry of each key; a second
 reference compiles every entry directly.
 */
module CompileCache {
  import opened Bytes
  import opened Prelude

  type Address = nat

  type Hash = nat

  datatype Contract = Contract(address: Address, wasm: seq<byte>)

  datatype Compiled = Compiled(fingerprint: Hash, constructorParams: seq<byte>, rwasm: seq<byte>)

  // The hash function, the configuration chosen for an address, and the compiler.
  datatype Tools = Tools(
    hash: seq<byte> -> Hash,
    fingerprint: Address -> Hash,
    compile: (Address, seq<byte>) -> Option<Compiled>)

  datatype Artifact = Artifact(hash: Hash, rwasm: seq<byte>)

  datatype Key = Key(wasmHash: Hash, fingerprint: Hash)

  function KeyOf(tools: Tools, c: Contract): Key {
    Key(tools.hash(c.wasm), tools.fingerprint(c.address))
  }

  // Compiling one entry; `None` is a panic of the build.
  function Compile(tools: Tools, c: Contract): Option<Artifact> {
    var r := tools.compile(c.address, c.wasm);
    if r.None? || r.value.fingerprint != tools.fingerprint(c.address) || r.value.constructorParams != [] then None
    else Some(Artifact(tools.hash(r.value.rwasm), r.value.rwasm))
  }

  // ---------------------------------------------------------------- what a build should be

  predicate SameKey(tools: Tools, c: Contract, d: Contract) {
    tools.hash(c.wasm) == tools.hash(d.wasm) && tools.fingerprint(c.address) == tools.fingerprint(d.address)
  }

  // The first entry with the key of `c`.
  function FirstWith(tools: Tools, cs: seq<Contract>, c: Contract): Option<Contract> {
    if cs == [] then None
    else
      var earlier, last := FirstWith(tools, cs[..|cs| - 1], c), cs[|cs| - 1];
      if earlier.Some? then earlier else if SameKey(tools, last, c) then Some(last) else None
  }

  // The last entry for an address.
  function LastAt(cs: seq<Contract>, a: Address): Option<Contract> {
    if cs == [] then None
    else if cs[|cs| - 1].address == a then Some(cs[|cs| - 1])
    else LastAt(cs[..|cs| - 1], a)
  }

  lemma {:induction false} FirstWithMeans(tools: Tools, cs: seq<Contract>, c: Contract) returns (i: nat)
    ensures i <= |cs| && forall j :: 0 <= j < i ==> !SameKey(tools, cs[j], c)
    ensures if i == |cs| then FirstWith(tools, cs, c) == None
            else FirstWith(tools, cs, c) == Some(cs[i]) && SameKey(tools, cs[i], c)
  {
    if cs == [] {
      i := 0;
    } else {
      i := FirstWithMeans(tools, cs[..|cs| - 1], c);
      if i == |cs| - 1 && !SameKey(tools, cs[i], c) { i := |cs|; }
    }
  }

  lemma {:induction false} LastAtMeans(cs: seq<Contract>, a: Address) returns (i: int)
    ensures -1 <= i < |cs| && forall j :: i < j < |cs| ==> cs[j].address != a
    ensures if i == -1 then LastAt(cs, a) == None else LastAt(cs, a) == Some(cs[i]) && cs[i].address == a
  {
    if cs == [] {
      i := -1;
    } else if cs[|cs| - 1].address == a {
      i := |cs| - 1;
    } else {
      i := LastAtMeans(cs[..|cs| - 1], a);
    }
  }

  // The compiler produces something, under the configuration that was asked for and without parameters.
  predicate Usable(tools: Tools, c: Contract) {
    match tools.compile(c.address, c.wasm)
    case None => false
    case Some(r) => r.fingerprint == tools.fingerprint(c.address) && |r.constructorParams| == 0
  }

  // What the compiler makes of `c`, with the hash of that.
  predicate Makes(tools: Tools, c: Contract, a: Artifact) {
    && Usable(tools, c)
    && a.rwasm == tools.compile(c.address, c.wasm).value.rwasm
    && a.hash == tools.hash(a.rwasm)
  }

  // The first entry of each key, in order.
  function Firsts(tools: Tools, cs: seq<Contract>): seq<Contract> {
    if cs == [] then []
    else if FirstWith(tools, cs[..|cs| - 1], cs[|cs| - 1]).Some? then Firsts(tools, cs[..|cs| - 1])
    else Firsts(tools, cs[..|cs| - 1]) + [cs[|cs| - 1]]
  }

  // The first entry of every key is usable.
  predicate AllUsable(tools: Tools, cs: seq<Contract>) {
    forall i :: 0 <= i < |Firsts(tools, cs)| ==> Usable(tools, Firsts(tools, cs)[i])
  }

  // Address `a` gets what the compiler makes of the first entry with the key of its last entry.
  predicate RightArtifact(tools: Tools, cs: seq<Contract>, artifacts: map<Address, Artifact>, a: Address) {
    var last := LastAt(cs, a);
    if last.None? then a !in artifacts
    else
      var first := FirstWith(tools, cs, last.value);
      a in artifacts && first.Some? && Makes(tools, first.value, artifacts[a])
  }

  // ---------------------------------------------------------------- memoised and direct builds

  datatype Build = Build(cache: map<Key, Artifact>, artifacts: map<Address, Artifact>, compiled: seq<Contract>)

  function Visit(tools: Tools, b: Build, c: Contract): Option<Build> {
    var key := KeyOf(tools, c);
    if key in b.cache then Some(b.(artifacts := b.artifacts[c.address := b.cache[key]]))
    else
      var r := Compile(tools, c);
      if r.None? then None
      else Some(Build(b.cache[key := r.value], b.artifacts[c.address := r.value], b.compiled + [c]))
  }

  function Memoised(tools: Tools, cs: seq<Contract>): Option<Build> {
    if cs == [] then Some(Build(map[], map[], []))
    else
      var b := Memoised(tools, cs[..|cs| - 1]);
      if b.None? then None else Visit(tools, b.value, cs[|cs| - 1])
  }

  function Direct(tools: Tools, cs: seq<Contract>): Option<map<Address, Artifact>> {
    if cs == [] then Some(map[])
    else
      var m, r := Direct(tools, cs[..|cs| - 1]), Compile(tools, cs[|cs| - 1]);
      if m.None? || r.None? then None else Some(m.value[cs[|cs| - 1].address := r.value])
  }

  // ---------------------------------------------------------------- the memoised build is right

  // What the cache holds for the key of `c` is what the compiler makes of the first entry with it.
  predicate CachedRight(tools: Tools, cs: seq<Contract>, b: Build, c: Contract) {
    var first := FirstWith(tools, cs, c);
    if first.None? then KeyOf(tools, c) !in b.cache
    else KeyOf(tools, c) in b.cache && Makes(tools, first.value, b.cache[KeyOf(tools, c)])
  }

  lemma UsableMakes(tools: Tools, c: Contract)
    ensures Compile(tools, c).Some? <==> Usable(tools, c)
    ensures Compile(tools, c).Some? ==> Makes(tools, c, Compile(tools, c).value)
  {}

  lemma Last(tools: Tools, init: seq<Contract>, x: Contract, c: Contract)
    ensures var cs, earlier := init + [x], FirstWith(tools, init, c);
            FirstWith(tools, cs, c) == if earlier.Some? then earlier else if SameKey(tools, x, c) then Some(x) else None
  {
    assert (init + [x])[..|init|] == init;
  }

  lemma CacheGrows(tools: Tools, init: seq<Contract>, x: Contract, b: Build, c: Contract)
    requires CachedRight(tools, init, b, c) && CachedRight(tools, init, b, x) && Visit(tools, b, x).Some?
    ensures CachedRight(tools, init + [x], Visit(tools, b, x).value, c)
  {
    Last(tools, init, x, c);
    UsableMakes(tools, x);
  }

  lemma ArtifactsGrow(tools: Tools, init: seq<Contract>, x: Contract, b: Build, a: Address)
    requires RightArtifact(tools, init, b.artifacts, a) && CachedRight(tools, init, b, x) && Visit(tools, b, x).Some?
    ensures RightArtifact(tools, init + [x], Visit(tools, b, x).value.artifacts, a)
  {
    var cs := init + [x];
    assert cs[..|init|] == init && cs[|init|] == x;
    UsableMakes(tools, x);
    if a == x.address {
      Last(tools, init, x, x);
    } else if LastAt(init, a).Some? {
      Last(tools, init, x, LastAt(init, a).value);
    }
  }

  // The build so far, if it has not failed.
  ghost predicate Right(tools: Tools, cs: seq<Contract>, b: Build) {
    && (forall c :: CachedRight(tools, cs, b, c))
    && (forall a :: RightArtifact(tools, cs, b.artifacts, a))
    && b.compiled == Firsts(tools, cs)
  }

  lemma StepIsRight(tools: Tools, init: seq<Contract>, x: Contract, b: Build)
    requires Right(tools, init, b) && Visit(tools, b, x).Some?
    ensures Right(tools, init + [x], Visit(tools, b, x).value)
  {
    var cs, b' := init + [x], Visit(tools, b, x).value;
    assert cs[..|init|] == init && cs[|init|] == x;
    assert CachedRight(tools, init, b, x);
    forall c ensures CachedRight(tools, cs, b', c) {
      assert CachedRight(tools, init, b, c);
      CacheGrows(tools, init, x, b, c);
    }
    forall a ensures RightArtifact(tools, cs, b'.artifacts, a) {
      assert RightArtifact(tools, init, b.artifacts, a);
      ArtifactsGrow(tools, init, x, b, a);
    }
  }

  // Whether the next entry fails.
  lemma StepFails(tools: Tools, init: seq<Contract>, x: Contract, b: Build)
    requires Right(tools, init, b) && AllUsable(tools, init)
    ensures Visit(tools, b, x).None? <==> !AllUsable(tools, init + [x])
  {
    var cs := init + [x];
    assert cs[..|init|] == init && cs[|init|] == x;
    assert CachedRight(tools, init, b, x);
    UsableMakes(tools, x);
    if FirstWith(tools, init, x).None? {
      assert Firsts(tools, cs)[|Firsts(tools, init)|] == x;
    }
  }

  lemma StillUnusable(tools: Tools, init: seq<Contract>, x: Contract)
    requires !AllUsable(tools, init)
    ensures !AllUsable(tools, init + [x])
  {
    var cs := init + [x];
    assert cs[..|init|] == init && cs[|init|] == x;
    var i :| 0 <= i < |Firsts(tools, init)| && !Usable(tools, Firsts(tools, init)[i]);
    assert Firsts(tools, cs)[i] == Firsts(tools, init)[i];
  }

  lemma {:induction false} MemoisedIsRight(tools: Tools, cs: seq<Contract>)
    ensures Memoised(tools, cs).Some? <==> AllUsable(tools, cs)
    ensures Memoised(tools, cs).Some? ==> Right(tools, cs, Memoised(tools, cs).value)
  {
    if cs == [] {
    } else {
      var init, x := cs[..|cs| - 1], cs[|cs| - 1];
      assert cs == init + [x];
      MemoisedIsRight(tools, init);
      if Memoised(tools, init).None? {
        StillUnusable(tools, init, x);
      } else {
        var b := Memoised(tools, init).value;
        StepFails(tools, init, x, b);
        if Visit(tools, b, x).Some? { StepIsRight(tools, init, x, b); }
      }
    }
  }

  // ---------------------------------------------------------------- the loop

  /** The compiler, which remembers what it was run on. */
  class Compiler {
    const tools: Tools
    var runs: seq<Contract>

    constructor (tools: Tools)
      ensures this.tools == tools && runs == []
    {
      this.tools := tools;
      runs := [];
    }

    method Run(c: Contract) returns (r: Option<Compiled>)
      modifies this
      ensures runs == old(runs) + [c] && r == tools.compile(c.address, c.wasm)
    {
      runs := runs + [c];
      r := tools.compile(c.address, c.wasm);
    }
  }

  /**
   `compile_all_contracts`. It panics exactly when the first entry of some key is not usable; otherwise
   every address has what the compiler makes of the first entry of its key, and the compiler was run on
   the first entry of each key, once, and on nothing else.
   */
  method CompileAllContracts(compiler: Compiler, contracts: seq<Contract>)
    returns (artifacts: Option<map<Address, Artifact>>)
    modifies compiler
    ensures artifacts.Some? <==> AllUsable(compiler.tools, contracts)
    ensures artifacts.Some? ==> forall a :: RightArtifact(compiler.tools, contracts, artifacts.value, a)
    ensures artifacts.Some? ==> compiler.runs == old(compiler.runs) + Firsts(compiler.tools, contracts)
    ensures artifacts == match Memoised(compiler.tools, contracts)
                         case None => None
                         case Some(b) => Some(b.artifacts)
  {
    var tools := compiler.tools;
    MemoisedIsRight(tools, contracts);
    var cache: map<Key, Artifact> := map[];
    var byAddress: map<Address, Artifact> := map[];
    ghost var compiled: seq<Contract> := [];
    var i := 0;
    while i < |contracts|
      invariant 0 <= i <= |contracts|
      invariant Memoised(tools, contracts[..i]) == Some(Build(cache, byAddress, compiled))
      invariant compiler.runs == old(compiler.runs) + compiled
    {
      var c := contracts[i];
      assert contracts[..i + 1][..i] == contracts[..i];
      var key := Key(tools.hash(c.wasm), tools.fingerprint(c.address));
      i := i + 1;
      if key in cache {
        byAddress := byAddress[c.address := cache[key]];
        continue;
      }
      var r := compiler.Run(c);
      compiled := compiled + [c];
      if r.None? || r.value.fingerprint != key.fingerprint || |r.value.constructorParams| != 0 {
        StaysFailed(tools, contracts, i);
        return None;
      }
      var result := Artifact(tools.hash(r.value.rwasm), r.value.rwasm);
      cache := cache[key := result];
      byAddress := byAddress[c.address := result];
    }
    assert contracts[..i] == contracts;
    artifacts := Some(byAddress);
  }

  lemma {:induction false} StaysFailed(tools: Tools, cs: seq<Contract>, i: nat)
    requires i <= |cs| && Memoised(tools, cs[..i]).None?
    ensures Memoised(tools, cs).None?
    decreases |cs| - i
  {
    if i == |cs| {
      assert cs[..i] == cs;
    } else {
      assert cs[..i + 1][..i] == cs[..i];
      StaysFailed(tools, cs, i + 1);
    }
  }

  /** Every entry has a first entry of its key, and that one is compiled. */
  lemma {:induction false} EveryKeyIsCompiled(tools: Tools, cs: seq<Contract>, c: Contract)
    ensures FirstWith(tools, cs, c).Some? ==> FirstWith(tools, cs, c).value in Firsts(tools, cs)
    ensures (exists i :: 0 <= i < |Firsts(tools, cs)| && SameKey(tools, Firsts(tools, cs)[i], c)) ==>
      FirstWith(tools, cs, c).Some?
  {
    if cs == [] {
    } else {
      var init, x := cs[..|cs| - 1], cs[|cs| - 1];
      EveryKeyIsCompiled(tools, init, c);
      if SameKey(tools, x, c) { SameKeySameFirst(tools, init, x, c); }
    }
  }

  lemma {:induction false} SameKeySameFirst(tools: Tools, cs: seq<Contract>, c: Contract, d: Contract)
    requires SameKey(tools, c, d)
    ensures FirstWith(tools, cs, c) == FirstWith(tools, cs, d)
  {
    if cs == [] {
    } else {
      SameKeySameFirst(tools, cs[..|cs| - 1], c, d);
    }
  }

  /** No two entries that are compiled have the same key. */
  lemma {:induction false} OneCompilationPerKey(tools: Tools, cs: seq<Contract>)
    ensures forall i, j :: 0 <= i < j < |Firsts(tools, cs)| ==>
      !SameKey(tools, Firsts(tools, cs)[i], Firsts(tools, cs)[j])
  {
    if cs == [] {
    } else {
      OneCompilationPerKey(tools, cs[..|cs| - 1]);
      EveryKeyIsCompiled(tools, cs[..|cs| - 1], cs[|cs| - 1]);
    }
  }

  // ---------------------------------------------------------------- memoised and direct agree

  /** Entries with the same key compile to the same artifact. */
  ghost predicate KeyDetermines(tools: Tools, cs: seq<Contract>) {
    forall i, j :: 0 <= i < |cs| && 0 <= j < |cs| && KeyOf(tools, cs[i]) == KeyOf(tools, cs[j]) ==>
      Compile(tools, cs[i]) == Compile(tools, cs[j])
  }

  // What the cache holds is what each entry would have compiled to.
  ghost predicate CacheIsRight(tools: Tools, cs: seq<Contract>, b: Build) {
    && (forall i :: 0 <= i < |cs| ==>
         KeyOf(tools, cs[i]) in b.cache && Compile(tools, cs[i]) == Some(b.cache[KeyOf(tools, cs[i])]))
    && (forall k :: k in b.cache ==> exists i :: 0 <= i < |cs| && KeyOf(tools, cs[i]) == k)
  }

  ghost predicate SameBuild(tools: Tools, cs: seq<Contract>) {
    var m, d := Memoised(tools, cs), Direct(tools, cs);
    (m.None? && d.None?) || (m.Some? && d.Some? && m.value.artifacts == d.value)
  }

  lemma StepAgrees(tools: Tools, init: seq<Contract>, c: Contract, b: Build)
    requires KeyDetermines(tools, init + [c]) && CacheIsRight(tools, init, b)
    ensures Visit(tools, b, c).None? <==> Compile(tools, c).None?
    ensures Visit(tools, b, c).Some? ==>
      Visit(tools, b, c).value.artifacts == b.artifacts[c.address := Compile(tools, c).value]
    ensures KeyOf(tools, c) in b.cache ==> Compile(tools, c) == Some(b.cache[KeyOf(tools, c)])
  {
    var cs, key := init + [c], KeyOf(tools, c);
    if key in b.cache {
      var i :| 0 <= i < |init| && KeyOf(tools, init[i]) == key;
      assert cs[i] == init[i] && cs[|init|] == c;
      assert KeyOf(tools, cs[i]) == KeyOf(tools, cs[|init|]);
    }
  }

  lemma StepKeepsCache(tools: Tools, init: seq<Contract>, c: Contract, b: Build)
    requires CacheIsRight(tools, init, b) && Visit(tools, b, c).Some?
    requires KeyOf(tools, c) in b.cache ==> Compile(tools, c) == Some(b.cache[KeyOf(tools, c)])
    ensures CacheIsRight(tools, init + [c], Visit(tools, b, c).value)
  {
    var cs, b' := init + [c], Visit(tools, b, c).value;
    assert cs[|init|] == c && forall i :: 0 <= i < |init| ==> cs[i] == init[i];
    forall k | k in b'.cache ensures exists i :: 0 <= i < |cs| && KeyOf(tools, cs[i]) == k {
      if k in b.cache {
        var i :| 0 <= i < |init| && KeyOf(tools, init[i]) == k;
        assert KeyOf(tools, cs[i]) == k;
      } else {
        assert KeyOf(tools, cs[|init|]) == k;
      }
    }
  }

  lemma {:induction false} MemoisedIsDirect(tools: Tools, cs: seq<Contract>)
    requires KeyDetermines(tools, cs)
    ensures SameBuild(tools, cs)
    ensures Memoised(tools, cs).Some? ==> CacheIsRight(tools, cs, Memoised(tools, cs).value)
  {
    if cs == [] {
    } else {
      var init, c := cs[..|cs| - 1], cs[|cs| - 1];
      assert cs == init + [c];
      assert KeyDetermines(tools, init) by {
        assert forall i :: 0 <= i < |init| ==> init[i] == cs[i];
      }
      MemoisedIsDirect(tools, init);
      if Memoised(tools, init).Some? {
        StepAgrees(tools, init, c, Memoised(tools, init).value);
        if Memoised(tools, cs).Some? { StepKeepsCache(tools, init, c, Memoised(tools, init).value); }
      }
    }
  }

  // Without repeated addresses, each address keeps the artifact cached for its key.
  lemma {:induction false} ArtifactsComeFromTheCache(tools: Tools, cs: seq<Contract>, i: nat)
    requires i < |cs| && Memoised(tools, cs).Some?
    requires forall j, k :: 0 <= j < k < |cs| ==> cs[j].address != cs[k].address
    ensures var b := Memoised(tools, cs).value;
            && cs[i].address in b.artifacts && KeyOf(tools, cs[i]) in b.cache
            && b.artifacts[cs[i].address] == b.cache[KeyOf(tools, cs[i])]
  {
    if i == |cs| - 1 {
    } else {
      var init := cs[..|cs| - 1];
      assert init[i] == cs[i];
      ArtifactsComeFromTheCache(tools, init, i);
    }
  }

  lemma {:induction false} DirectAt(tools: Tools, cs: seq<Contract>, i: nat)
    requires i < |cs| && Direct(tools, cs).Some?
    requires forall j, k :: 0 <= j < k < |cs| ==> cs[j].address != cs[k].address
    ensures var m := Direct(tools, cs).value;
            cs[i].address in m && Compile(tools, cs[i]) == Some(m[cs[i].address])
  {
    if i == |cs| - 1 {
    } else {
      var init := cs[..|cs| - 1];
      assert init[i] == cs[i];
      DirectAt(tools, init, i);
    }
  }

  /**
   For a list without repeated addresses on which one of the builds succeeds, the memoised build equals
   the direct one, failures included, exactly when the cache key determines the artifact.
   */
  lemma MemoisedIsDirectIff(tools: Tools, cs: seq<Contract>)
    requires forall j, k :: 0 <= j < k < |cs| ==> cs[j].address != cs[k].address
    requires Direct(tools, cs).Some? || Memoised(tools, cs).Some?
    ensures SameBuild(tools, cs) <==> KeyDetermines(tools, cs)
  {
    if KeyDetermines(tools, cs) { MemoisedIsDirect(tools, cs); }
    if SameBuild(tools, cs) {
      var b := Memoised(tools, cs).value;
      forall i | 0 <= i < |cs|
        ensures KeyOf(tools, cs[i]) in b.cache && Compile(tools, cs[i]) == Some(b.cache[KeyOf(tools, cs[i])])
      {
        ArtifactsComeFromTheCache(tools, cs, i);
        DirectAt(tools, cs, i);
      }
    }
  }

  /**
   The key does determine the artifact when hashing is injective on the contracts' code and the
   compiler looks at nothing but the code and the configuration fingerprint.
   */
  lemma InjectiveHashDetermines(tools: Tools, cs: seq<Contract>)
    requires forall i, j :: 0 <= i < |cs| && 0 <= j < |cs| && tools.hash(cs[i].wasm) == tools.hash(cs[j].wasm) ==>
               cs[i].wasm == cs[j].wasm
    requires forall a, b, w :: tools.fingerprint(a) == tools.fingerprint(b) ==>
               tools.compile(a, w) == tools.compile(b, w)
    ensures KeyDetermines(tools, cs) && SameBuild(tools, cs)
  {
    forall i, j | 0 <= i < |cs| && 0 <= j < |cs| && KeyOf(tools, cs[i]) == KeyOf(tools, cs[j])
      ensures Compile(tools, cs[i]) == Compile(tools, cs[j])
    {
      assert cs[i].wasm == cs[j].wasm;
    }
    MemoisedIsDirect(tools, cs);
  }

  /** With a hash that collides, the second contract gets the code of the first. */
  lemma CollisionsMixContracts()
    ensures exists tools: Tools, cs: seq<Contract> ::
      && |cs| == 2 && cs[0].address != cs[1].address && tools.hash(cs[0].wasm) == tools.hash(cs[1].wasm)
      && Direct(tools, cs).Some? && !SameBuild(tools, cs)
  {
    var tools := Tools(_ => 0, _ => 0, (a, w) => Some(Compiled(0, [], w)));
    var c, d := Contract(0, []), Contract(1, [0]);
    var cs := [c, d];
    assert cs[..1] == [c] && [c][..0] == [];
    assert Direct(tools, [c]).Some?;
    assert Direct(tools, cs).Some?;
    assert KeyOf(tools, cs[0]) == KeyOf(tools, cs[1]);
    assert Compile(tools, cs[0]).value.rwasm != Compile(tools, cs[1]).value.rwasm;
    MemoisedIsDirectIff(tools, cs);
  }
}
