/**
 The parameter and descriptor maps of a node, and what validating, committing and undeclaring do
 to them (`lib/node.js`).
 */
module ParameterStore {
  import opened JavaScript
  import opened Optional
  import opened Parameters

  datatype Store = Store(parameters: map<string, Parameter>, descriptors: map<string, Descriptor>)

  /** `undeclareParameter` throws on read-only parameters; a batch can then be half applied. */
  datatype Outcome = Done(store: Store) | Threw(store: Store)

  /** `getParameterDescriptor`: a missing descriptor reads as one of type NOT_SET. */
  function DescriptorOf(st: Store, name: string): Descriptor {
    if name in st.descriptors then st.descriptors[name] else Descriptor(name, NOT_SET, false, None)
  }

  /**
   One turn of `_validateParameters`. There is no separate test for undeclared parameters: the
   descriptor that is made up for them fails the type check.
   */
  predicate Validates(st: Store, p: Parameter, declare: bool) {
    && ValidParameter(p)
    && (declare || !DescriptorOf(st, p.name).readOnly)
    && (p.kind != NOT_SET ==> Accepts(DescriptorOf(st, p.name), p))
  }

  predicate ValidatesAll(st: Store, batch: seq<Parameter>, declare: bool) {
    forall i | 0 <= i < |batch| :: Validates(st, batch[i], declare)
  }

  function Undeclare(st: Store, name: string): Outcome {
    if name !in st.parameters then Done(st)
    else if DescriptorOf(st, name).readOnly then Threw(st)
    else Done(Store(st.parameters - {name}, st.descriptors - {name}))
  }

  function CommitOne(st: Store, p: Parameter): Outcome {
    if p.kind == NOT_SET then Undeclare(st, p.name)
    else Done(st.(parameters := st.parameters[p.name := p]))
  }

  /** The commit loop of `_setParametersAtomically`. */
  function Commit(st: Store, batch: seq<Parameter>): Outcome {
    if batch == [] then Done(st)
    else
      var before := Commit(st, batch[..|batch| - 1]);
      if before.Threw? then before else CommitOne(before.store, batch[|batch| - 1])
  }

  // ----- What a store should look like -----

  predicate Holds(d: Descriptor, p: Parameter) {
    && ValidParameter(p) && d.kind == p.kind
    && (d.range.Some? ==> InRange(d.range.value, p.value))
  }

  predicate StoredWell(st: Store, name: string)
    requires name in st.parameters
  {
    st.parameters[name].name == name && name in st.descriptors && Holds(st.descriptors[name], st.parameters[name])
  }

  /** Every descriptor is filed under its name, and every stored parameter obeys its descriptor. */
  predicate GoodStore(st: Store) {
    && (forall name | name in st.descriptors :: st.descriptors[name].name == name)
    && (forall name | name in st.parameters :: StoredWell(st, name))
  }

  // ----- What a batch does, without going through it -----

  predicate Mentions(batch: seq<Parameter>, name: string) {
    exists i | 0 <= i < |batch| :: batch[i].name == name
  }

  /** The last entry of a name. */
  function LastOf(batch: seq<Parameter>, name: string): (p: Parameter)
    requires Mentions(batch, name)
    ensures p in batch && p.name == name
  {
    var last := batch[|batch| - 1];
    if last.name == name then last
    else
      var init := batch[..|batch| - 1];
      assert Mentions(init, name) by {
        var i :| 0 <= i < |batch| && batch[i].name == name;
        assert init[i].name == name;
      }
      LastOf(init, name)
  }

  predicate SetsBefore(batch: seq<Parameter>, i: nat, name: string)
    requires i <= |batch|
  {
    exists k | 0 <= k < i :: batch[k].name == name && batch[k].kind != NOT_SET
  }

  /** Entry `i` removes `name`, which was stored before the batch or set earlier in it. */
  predicate RemovesAt(st: Store, batch: seq<Parameter>, i: nat, name: string)
    requires i < |batch|
  {
    batch[i].name == name && batch[i].kind == NOT_SET && (name in st.parameters || SetsBefore(batch, i, name))
  }

  predicate Removes(st: Store, batch: seq<Parameter>, name: string) {
    exists i | 0 <= i < |batch| :: RemovesAt(st, batch, i, name)
  }

  predicate StoredAfter(st: Store, batch: seq<Parameter>, name: string) {
    if Mentions(batch, name) then LastOf(batch, name).kind != NOT_SET else name in st.parameters
  }

  /** The effect of a batch name by name: the last entry decides, removals take the descriptor. */
  ghost predicate BatchEffect(st: Store, batch: seq<Parameter>, st': Store) {
    && (forall name: string :: name in st'.parameters <==> StoredAfter(st, batch, name))
    && (forall name | name in st'.parameters ::
          st'.parameters[name] == if Mentions(batch, name) then LastOf(batch, name) else st.parameters[name])
    && (forall name: string :: name in st'.descriptors <==> name in st.descriptors && !Removes(st, batch, name))
    && (forall name | name in st'.descriptors :: st'.descriptors[name] == st.descriptors[name])
  }

  /** Appending one entry changes these notions only for its own name. */
  lemma Appended(st: Store, batch: seq<Parameter>, name: string)
    requires batch != []
    ensures var p, init := batch[|batch| - 1], batch[..|batch| - 1];
            && (Mentions(batch, name) <==> Mentions(init, name) || p.name == name)
            && (p.name == name ==> LastOf(batch, name) == p)
            && (p.name != name && Mentions(init, name) ==> LastOf(batch, name) == LastOf(init, name))
            && (Removes(st, batch, name) <==> Removes(st, init, name) || RemovesAt(st, batch, |batch| - 1, name))
  {
    var p, init := batch[|batch| - 1], batch[..|batch| - 1];
    if Mentions(init, name) {
      var i :| 0 <= i < |init| && init[i].name == name;
      assert batch[i].name == name;
    }
    assert p.name == name ==> batch[|batch| - 1].name == name;
    forall i | 0 <= i < |init|
      ensures RemovesAt(st, init, i, name) <==> RemovesAt(st, batch, i, name)
    {
      assert SetsBefore(init, i, name) <==> SetsBefore(batch, i, name);
    }
  }

  lemma {:induction false} CommitEffect(st: Store, batch: seq<Parameter>)
    requires Commit(st, batch).Done?
    ensures BatchEffect(st, batch, Commit(st, batch).store)
  {
    if batch != [] {
      var init := batch[..|batch| - 1];
      CommitEffect(st, init);
      CommitOneEffect(st, batch, Commit(st, init).store, Commit(st, batch).store);
    }
  }

  lemma NameAfter(st: Store, batch: seq<Parameter>, name: string)
    requires Commit(st, batch).Done?
    ensures NameEffect(st, batch, Commit(st, batch).store, name)
  {
    CommitEffect(st, batch);
  }

  lemma CommitOneEffect(st: Store, batch: seq<Parameter>, mid: Store, st': Store)
    requires batch != [] && BatchEffect(st, batch[..|batch| - 1], mid)
    requires CommitOne(mid, batch[|batch| - 1]) == Done(st')
    ensures BatchEffect(st, batch, st')
  {
    forall name: string
      ensures NameEffect(st, batch, st', name)
    {
      CommitOneName(st, batch, mid, st', name);
    }
    EffectByNames(st, batch, st');
  }

  lemma EffectByNames(st: Store, batch: seq<Parameter>, st': Store)
    requires forall name: string :: NameEffect(st, batch, st', name)
    ensures BatchEffect(st, batch, st')
  {
    forall name: string
      ensures name in st'.parameters <==> StoredAfter(st, batch, name)
      ensures name in st'.descriptors <==> name in st.descriptors && !Removes(st, batch, name)
    {
      assert NameEffect(st, batch, st', name);
    }
    forall name | name in st'.parameters
      ensures st'.parameters[name] == if Mentions(batch, name) then LastOf(batch, name) else st.parameters[name]
    {
      assert NameEffect(st, batch, st', name);
    }
    forall name | name in st'.descriptors
      ensures st'.descriptors[name] == st.descriptors[name]
    {
      assert NameEffect(st, batch, st', name);
    }
  }

  ghost predicate NameEffect(st: Store, batch: seq<Parameter>, st': Store, name: string) {
    && (name in st'.parameters <==> StoredAfter(st, batch, name))
    && (name in st'.parameters ==>
          st'.parameters[name] == if Mentions(batch, name) then LastOf(batch, name) else st.parameters[name])
    && (name in st'.descriptors <==> name in st.descriptors && !Removes(st, batch, name))
    && (name in st'.descriptors ==> st'.descriptors[name] == st.descriptors[name])
  }

  lemma CommitOneName(st: Store, batch: seq<Parameter>, mid: Store, st': Store, name: string)
    requires batch != [] && BatchEffect(st, batch[..|batch| - 1], mid)
    requires CommitOne(mid, batch[|batch| - 1]) == Done(st')
    ensures NameEffect(st, batch, st', name)
  {
    var p := batch[|batch| - 1];
    Appended(st, batch, name);
    if p.name == name && p.kind == NOT_SET {
      RemovalApplies(st, batch, name);
    }
  }

  /** The last entry removes a name that is still stored, or one that was removed before. */
  lemma RemovalApplies(st: Store, batch: seq<Parameter>, name: string)
    requires batch != [] && batch[|batch| - 1].name == name && batch[|batch| - 1].kind == NOT_SET
    ensures Removes(st, batch, name) <==>
              StoredAfter(st, batch[..|batch| - 1], name) || Removes(st, batch[..|batch| - 1], name)
  {
    var init := batch[..|batch| - 1];
    Appended(st, batch, name);
    assert SetsBefore(batch, |init|, name) <==> SetsBefore(init, |init|, name);
    SetOrRemoved(st, init, name);
  }

  /** A name that was stored or set at some point is stored, or has been removed since. */
  lemma {:induction false} SetOrRemoved(st: Store, batch: seq<Parameter>, name: string)
    ensures name in st.parameters || SetsBefore(batch, |batch|, name) <==>
              StoredAfter(st, batch, name) || Removes(st, batch, name)
  {
    if batch != [] {
      var init := batch[..|batch| - 1];
      SetOrRemoved(st, init, name);
      Appended(st, batch, name);
      assert SetsBefore(batch, |init|, name) <==> SetsBefore(init, |init|, name);
      assert SetsBefore(batch, |batch|, name) <==>
             SetsBefore(batch, |init|, name) || (batch[|init|].name == name && batch[|init|].kind != NOT_SET);
    }
  }

  // ----- Committing keeps the store good -----

  /** No name ends up set after the same batch has removed it together with its descriptor. */
  ghost predicate NoRevival(st: Store, batch: seq<Parameter>) {
    forall name: string :: Mentions(batch, name) && LastOf(batch, name).kind != NOT_SET ==> !Removes(st, batch, name)
  }

  ghost predicate DistinctNames(batch: seq<Parameter>) {
    forall i, j | 0 <= i < j < |batch| :: batch[i].name != batch[j].name
  }

  lemma LastValidates(st: Store, batch: seq<Parameter>, declare: bool, name: string)
    requires ValidatesAll(st, batch, declare) && Mentions(batch, name)
    ensures Validates(st, LastOf(batch, name), declare)
  {
    var i :| 0 <= i < |batch| && batch[i] == LastOf(batch, name);
  }

  /**
   A validated batch leaves a good store good exactly if it revives no name: whether it does can be
   read off the batch and the stored names beforehand.
   */
  lemma CommitKeepsGoodStoreIff(st: Store, batch: seq<Parameter>, declare: bool)
    requires GoodStore(st) && ValidatesAll(st, batch, declare) && Commit(st, batch).Done?
    ensures GoodStore(Commit(st, batch).store) <==> NoRevival(st, batch)
  {
    CommitEffect(st, batch);
    var st' := Commit(st, batch).store;
    if NoRevival(st, batch) {
      forall name | name in st'.parameters
        ensures StoredWell(st', name)
      {
        if Mentions(batch, name) {
          LastValidates(st, batch, declare, name);
        } else {
          assert StoredWell(st, name);
        }
      }
    }
    if GoodStore(st') {
      forall name | Mentions(batch, name) && LastOf(batch, name).kind != NOT_SET
        ensures !Removes(st, batch, name)
      {
        assert StoredWell(st', name);
      }
    }
  }

  lemma DistinctNamesReviveNothing(st: Store, batch: seq<Parameter>)
    requires DistinctNames(batch)
    ensures NoRevival(st, batch)
  {
    forall name | Mentions(batch, name) && LastOf(batch, name).kind != NOT_SET
      ensures !Removes(st, batch, name)
    {
      var j :| 0 <= j < |batch| && batch[j] == LastOf(batch, name);
    }
  }

  /** Removing a parameter and setting it again in one batch stores it without a descriptor. */
  lemma RevivalBreaksStore()
    ensures exists st, batch ::
              GoodStore(st) && ValidatesAll(st, batch, false) && Commit(st, batch).Done?
              && !GoodStore(Commit(st, batch).store)
  {
    var gone, five := Parameter("a", NOT_SET, Undefined), Parameter("a", INTEGER, BigInt(5));
    var st := Store(map["a" := five], map["a" := FromParameter(five)]);
    var batch := [gone, five];
    assert "a"[0] == 'a' && !IsBlank("a");
    assert batch[..1] == [gone] && [gone][..0] == [];
    assert Commit(st, [gone]) == Done(Store(map[], map[]));
    assert Commit(st, batch) == Done(Store(map["a" := five], map[]));
    assert !StoredWell(Store(map["a" := five], map[]), "a");
  }

  /** The entry removes a read-only name that was stored before the batch or set earlier in it. */
  predicate RemovesReadOnly(st: Store, batch: seq<Parameter>, i: nat)
    requires i < |batch|
  {
    RemovesAt(st, batch, i, batch[i].name) && DescriptorOf(st, batch[i].name).readOnly
  }

  /** Committing throws, and leaves the batch half applied, exactly if an entry removes a read-only name. */
  lemma {:induction false} CommitThrowsIff(st: Store, batch: seq<Parameter>)
    ensures Commit(st, batch).Threw? <==> exists i | 0 <= i < |batch| :: RemovesReadOnly(st, batch, i)
  {
    if batch != [] {
      var init, n := batch[..|batch| - 1], |batch| - 1;
      CommitThrowsIff(st, init);
      forall i | 0 <= i < n
        ensures RemovesReadOnly(st, init, i) <==> RemovesReadOnly(st, batch, i)
      {
        assert SetsBefore(init, i, init[i].name) <==> SetsBefore(batch, i, init[i].name);
      }
      if Commit(st, init).Done? {
        LastThrowsIff(st, batch, Commit(st, init).store);
      }
    }
  }

  /** What has been removed without throwing was not read-only. */
  lemma RemovedIsWritable(st: Store, batch: seq<Parameter>, n: nat, name: string)
    requires n <= |batch| && forall i | 0 <= i < n :: !RemovesReadOnly(st, batch, i)
    ensures Removes(st, batch[..n], name) ==> !DescriptorOf(st, name).readOnly
  {
    if i :| 0 <= i < n && RemovesAt(st, batch[..n], i, name) {
      assert SetsBefore(batch[..n], i, name) <==> SetsBefore(batch, i, name);
      assert !RemovesReadOnly(st, batch, i);
    }
  }

  lemma LastThrowsIff(st: Store, batch: seq<Parameter>, mid: Store)
    requires batch != [] && Commit(st, batch[..|batch| - 1]) == Done(mid)
    requires forall i | 0 <= i < |batch| - 1 :: !RemovesReadOnly(st, batch, i)
    ensures CommitOne(mid, batch[|batch| - 1]).Threw? <==> RemovesReadOnly(st, batch, |batch| - 1)
  {
    var init, n := batch[..|batch| - 1], |batch| - 1;
    var name := batch[n].name;
    NameAfter(st, init, name);
    RemovedIsWritable(st, batch, n, name);
    SetOrRemoved(st, init, name);
    assert SetsBefore(batch, n, name) <==> SetsBefore(init, n, name);
  }

  /** Outside declarations, what has been validated can be committed. */
  lemma ValidatedCommits(st: Store, batch: seq<Parameter>)
    requires ValidatesAll(st, batch, false)
    ensures Commit(st, batch).Done?
  {
    CommitThrowsIff(st, batch);
    forall i | 0 <= i < |batch|
      ensures !RemovesReadOnly(st, batch, i)
    {
      assert Validates(st, batch[i], false);
    }
  }

  predicate ReadOnly(st: Store, name: string) {
    name in st.parameters && DescriptorOf(st, name).readOnly
  }

  /** Outside declarations, a batch that mentions a read-only parameter does not validate. */
  lemma ReadOnlyNotMentioned(st: Store, batch: seq<Parameter>, name: string)
    requires ReadOnly(st, name) && ValidatesAll(st, batch, false)
    ensures !Mentions(batch, name)
  {
    forall i | 0 <= i < |batch|
      ensures batch[i].name != name
    {
      assert Validates(st, batch[i], false);
    }
  }

  /** A name the batch does not mention keeps its parameter and its descriptor. */
  lemma UnmentionedKept(st: Store, batch: seq<Parameter>, name: string)
    requires Commit(st, batch).Done? && !Mentions(batch, name)
    ensures var st' := Commit(st, batch).store;
            && (name in st'.parameters <==> name in st.parameters)
            && (name in st.parameters ==> st'.parameters[name] == st.parameters[name])
            && DescriptorOf(st', name) == DescriptorOf(st, name)
  {
    CommitEffect(st, batch);
    assert !Removes(st, batch, name);
  }

  // ----- What is applied when committing throws -----

  /** Once the commit loop throws, the rest of the batch does not matter. */
  lemma {:induction false} CommitStops(st: Store, batch: seq<Parameter>, n: nat)
    requires n <= |batch| && Commit(st, batch[..n]).Threw?
    ensures Commit(st, batch) == Commit(st, batch[..n])
    decreases |batch|
  {
    if n < |batch| {
      var init := batch[..|batch| - 1];
      assert init[..n] == batch[..n];
      CommitStops(st, init, n);
    } else {
      assert batch[..n] == batch;
    }
  }

  /** The first entry from `k` on that removes a read-only name, or the end. */
  function FirstThrow(st: Store, batch: seq<Parameter>, k: nat): (n: nat)
    requires k <= |batch|
    ensures k <= n <= |batch|
    ensures forall i | k <= i < n :: !RemovesReadOnly(st, batch, i)
    ensures n < |batch| ==> RemovesReadOnly(st, batch, n)
    decreases |batch| - k
  {
    if k == |batch| || RemovesReadOnly(st, batch, k) then k else FirstThrow(st, batch, k + 1)
  }

  /** The entries before the first that removes a read-only name: these the commit loop applies. */
  function Applied(st: Store, batch: seq<Parameter>): seq<Parameter> {
    batch[..FirstThrow(st, batch, 0)]
  }

  lemma PrefixThrows(st: Store, batch: seq<Parameter>, n: nat)
    requires n <= |batch|
    ensures Commit(st, batch[..n]).Threw? <==> exists i | 0 <= i < n :: RemovesReadOnly(st, batch, i)
  {
    var prefix := batch[..n];
    CommitThrowsIff(st, prefix);
    forall i | 0 <= i < n
      ensures RemovesReadOnly(st, prefix, i) <==> RemovesReadOnly(st, batch, i)
    {
      assert SetsBefore(prefix, i, prefix[i].name) <==> SetsBefore(batch, i, prefix[i].name);
    }
  }

  /** Whether or not the loop throws, what is stored after it is the applied entries, committed. */
  lemma AppliedIsCommitted(st: Store, batch: seq<Parameter>)
    ensures Commit(st, Applied(st, batch)) == Done(Commit(st, batch).store)
    ensures Commit(st, batch).Done? <==> Applied(st, batch) == batch
  {
    var n := FirstThrow(st, batch, 0);
    PrefixThrows(st, batch, n);
    if n == |batch| {
      assert batch[..n] == batch;
    } else {
      PrefixThrows(st, batch, n + 1);
      CommitStops(st, batch, n + 1);
      assert batch[..n + 1][..n] == batch[..n];
    }
  }
}
