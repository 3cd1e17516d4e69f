/** Validating a block: every solution set is checked against the state before it and the state after
    it, both read through the versioned index.

    Predicate decoding and the virtual machine are external. They are a parameter: any function of the
    set, the predicates and programs fetched for it, and the two states it may read.
 */
module Validate {
  import opened Types
  import opened Rows
  import opened Tables
  import opened ChainState
  import opened Storage
  import opened StateIndex
  import Registry
  import Words

  type Gas = g: int | 0 <= g <= GAS_MAX

  /** A decoded predicate: the program address of each node, and whatever else it encodes. */
  datatype Predicate = Predicate(nodes: seq<Addr>, rest: Blob)

  datatype Vm = Vm(
    decode: Blob -> Option<Predicate>,
    check: (SolutionSet, map<PredicateAddress, Predicate>, map<Addr, Blob>, State, State) -> Option<Gas>)

  /** The registry contracts and the machine. */
  datatype Env = Env(contracts: Addr, programs: Addr, vm: Vm)

  datatype Failure =
    | MissingPredicate(pred: PredicateAddress)
    | InvalidPredicate(pred: PredicateAddress)
    | MissingProgram(program: Addr)
    | InvalidProgram(program: Addr)
    | PredicatesError
    | GasOverflow

  datatype Outcome = Valid(gas: Gas) | Invalid(failure: Failure, index: nat)

  // ---------------------------------------------------------------- reading state

  /** Either the database on disk, or a dry run's one-block database in front of it. */
  datatype Db = Disk(disk: Tables) | DryRun(memory: Tables, disk: Tables)

  function QueryTables(t: Tables, contract: Addr, key: Key, number: Word, index: nat, pre: bool): Option<Value> {
    if pre then ExclusiveSet(t, contract, key, number, index) else InclusiveSet(t, contract, key, number, index)
  }

  /** `query`: a dry run asks memory first and falls through to disk. */
  function Read(db: Db, contract: Addr, key: Key, number: Word, index: nat, pre: bool): Option<Value> {
    match db
    case Disk(t) => QueryTables(t, contract, key, number, index, pre)
    case DryRun(m, t) =>
      match QueryTables(m, contract, key, number, index, pre)
      case Some(v) => Some(v)
      case None => QueryTables(t, contract, key, number, index, pre)
  }

  function SlotsOf(t: Tables): set<Slot> {
    set m | 0 <= m < |t.mutations| && t.mutations[m].solution < |t.solutions|
      :: (t.solutions[t.mutations[m].solution].contract, Words.WordsFromBlob(t.mutations[m].key))
  }

  function Slots(db: Db): set<Slot> {
    match db
    case Disk(t) => SlotsOf(t)
    case DryRun(m, t) => SlotsOf(m) + SlotsOf(t)
  }

  /** Everything the pre- or post-state reader of a set can see. */
  function View(db: Db, number: Word, index: nat, pre: bool): State {
    map slot | slot in Slots(db) && Read(db, slot.0, slot.1, number, index, pre).Some?
      :: Read(db, slot.0, slot.1, number, index, pre).value
  }

  lemma QueryInSlots(t: Tables, contract: Addr, key: Key, bound: Bound)
    ensures QueryState(t, contract, key, bound).Some? ==> (contract, key) in SlotsOf(t)
  {
    var hits := Hits(t, contract, Words.BlobFromWords(key), bound);
    if hits != {} {
      var h := FirstHit(hits);
      assert Words.WordsFromBlob(t.mutations[h.row].key) == key by { Words.BlobRoundTrip(key); }
    }
  }

  lemma TablesInSlots(t: Tables, contract: Addr, key: Key, number: Word, index: nat, pre: bool)
    ensures QueryTables(t, contract, key, number, index, pre).Some? ==> (contract, key) in SlotsOf(t)
  {
    QueryInSlots(t, contract, key, AtSet(number, index));
    QueryInSlots(t, contract, key, AtBlock(number - 1));
    if index > 0 {
      QueryInSlots(t, contract, key, AtSet(number, index - 1));
    }
  }

  /** The view holds exactly what single reads return. */
  lemma ViewIsRead(db: Db, contract: Addr, key: Key, number: Word, index: nat, pre: bool)
    ensures Lookup(View(db, number, index, pre), (contract, key)) == Read(db, contract, key, number, index, pre)
  {
    TablesInSlots(db.disk, contract, key, number, index, pre);
    if db.DryRun? {
      TablesInSlots(db.memory, contract, key, number, index, pre);
    }
    hide SlotsOf, QueryTables;
  }

  lemma SameState(a: State, b: State)
    requires forall contract, key :: Lookup(a, (contract, key)) == Lookup(b, (contract, key))
    ensures a == b
  {
    forall slot: Slot ensures Lookup(a, slot) == Lookup(b, slot) {
      assert slot == (slot.0, slot.1);
    }
    forall slot | slot in a ensures slot in b && a[slot] == b[slot] {
      assert Lookup(a, slot) == Lookup(b, slot);
    }
    forall slot | slot in b ensures slot in a {
      assert Lookup(a, slot) == Lookup(b, slot);
    }
  }

  /** On disk, the reader of set `i` sees the state between two sets of a sequential run. */
  lemma DiskView(db: Database, number: Word, index: nat, pre: bool)
    requires db.Valid() && ClearTo(db.Chain(), UpTo(number, if pre then index else index + 1))
    ensures View(Disk(db.tables), number, index, pre) == StateAt(db.Chain(), number, if pre then index else index + 1)
  {
    var view, state := View(Disk(db.tables), number, index, pre), StateAt(db.Chain(), number, if pre then index else index + 1);
    hide Rep, Tallied, Linked, View, StateAt, ExclusiveSet, InclusiveSet, ClearTo;
    forall contract, key ensures Lookup(view, (contract, key)) == Lookup(state, (contract, key)) {
      ViewIsRead(Disk(db.tables), contract, key, number, index, pre);
      SetQueries(db, contract, key, number, index);
    }
    SameState(view, state);
  }

  // ---------------------------------------------------------------- key_range

  /** Read `count` consecutive keys; a key that holds nothing gives an empty value. The successor of the last key is
      computed too, so a range that ends at the greatest key fails although every key in it exists.
   */
  method KeyRange(db: Db, contract: Addr, key: Key, count: nat, number: Word, index: nat, pre: bool)
    returns (values: Option<seq<Value>>)
    ensures values.Some? <==> Words.KeyValue(key) + count < Words.Pow(|key|)
    ensures values.Some? ==> |values.value| == count
    ensures values.Some? ==> forall i :: 0 <= i < count ==>
      match Read(db, contract, Words.KeyOf(|key|, Words.KeyValue(key) + i), number, index, pre)
      case Some(v) => values.value[i] == v
      case None => values.value[i] == []
  {
    hide Read, Words.KeyValue, Words.Pow, Words.KeyOf, Words.NextKey;
    var next := new Word[|key|](i requires 0 <= i < |key| => key[i]);
    var found: seq<Value> := [];
    Words.KeyValueBound(key);
    Words.KeyOfValue(key);
    assert next[..] == key;
    for k := 0 to count
      invariant Words.KeyValue(key) + k < Words.Pow(|key|)
      invariant next[..] == Words.KeyOf(|key|, Words.KeyValue(key) + k)
      invariant |found| == k
      invariant forall i :: 0 <= i < k ==>
        match Read(db, contract, Words.KeyOf(|key|, Words.KeyValue(key) + i), number, index, pre)
        case Some(v) => found[i] == v
        case None => found[i] == []
    {
      var value := Read(db, contract, next[..], number, index, pre);
      found := found + [if value.Some? then value.value else []];
      Words.NextKeyIsSuccessor(next[..]);
      Words.ValueOfKey(|key|, Words.KeyValue(key) + k);
      var ok := Words.NextKeyInPlace(next);
      if !ok {
        return None;
      }
    }
    return Some(found);
  }

  /** On disk, where no set up to the position is ambiguous, a range is a stretch of the replayed state: slot by slot
      what the state around the position holds, and an empty value where it holds nothing.
   */
  method KeyRangeOnDisk(db: Database, contract: Addr, key: Key, count: nat, number: Word, index: nat, pre: bool)
    returns (values: Option<seq<Value>>)
    requires db.Valid()
    ensures values.Some? <==> Words.KeyValue(key) + count < Words.Pow(|key|)
    ensures values.Some? ==> |values.value| == count
    ensures
      var k := if pre then index else index + 1;
      values.Some? && ClearTo(db.Chain(), UpTo(number, k)) ==> forall i :: 0 <= i < count ==>
        var (slot, state) := ((contract, Words.KeyOf(|key|, Words.KeyValue(key) + i)), StateAt(db.Chain(), number, k));
        if slot in state then values.value[i] == state[slot] else values.value[i] == []
  {
    hide Rep, Tallied, Linked, Read, StateAt, ClearTo, View, Words.KeyValue, Words.Pow, Words.KeyOf;
    values := KeyRange(Disk(db.tables), contract, key, count, number, index, pre);
    ghost var k := if pre then index else index + 1;
    if values.Some? && ClearTo(db.Chain(), UpTo(number, k)) {
      DiskView(db, number, index, pre);
      forall i | 0 <= i < count
        ensures
          var (slot, state) := ((contract, Words.KeyOf(|key|, Words.KeyValue(key) + i)), StateAt(db.Chain(), number, k));
          if slot in state then values.value[i] == state[slot] else values.value[i] == []
      {
        ViewIsRead(Disk(db.tables), contract, Words.KeyOf(|key|, Words.KeyValue(key) + i), number, index, pre);
      }
    }
  }

  // ---------------------------------------------------------------- predicates and programs

  datatype Fetched<+T> = Found(value: T) | Absent | Malformed

  /** `query_predicate`: registered with its contract, present, and decodable. */
  function QueryPredicate(env: Env, post: State, pa: PredicateAddress): Fetched<Predicate> {
    if Lookup(post, (env.contracts, Registry.ContractPredicateKey(pa.contract, pa.pred))).None? then Absent
    else
      match Lookup(post, (env.contracts, Registry.PredicateKey(pa.pred)))
      case None => Absent
      case Some(words) =>
        match Registry.Decode(words)
        case Err(_) => Malformed
        case Ok(bytes) => if env.vm.decode(bytes).Some? then Found(env.vm.decode(bytes).value) else Malformed
  }

  /** `query_program`. */
  function QueryProgram(env: Env, post: State, program: Addr): Fetched<Blob> {
    match Lookup(post, (env.programs, Registry.ProgramKey(program)))
    case None => Absent
    case Some(words) => if Registry.Decode(words).Ok? then Found(Registry.Decode(words).value) else Malformed
  }

  /** How a fetch that found nothing usable is reported. */
  ghost predicate Blames<T>(f: Fetched<T>, missing: Failure, invalid: Failure, e: Failure) {
    (f.Absent? && e == missing) || (f.Malformed? && e == invalid)
  }

  ghost predicate FirstBadPredicate(env: Env, post: State, solutions: seq<Solution>, k: nat, e: Failure)
    requires k < |solutions|
  {
    && AllPredicates(env, post, solutions[..k])
    && var pa := solutions[k].solves;
       Blames(QueryPredicate(env, post, pa), MissingPredicate(pa), InvalidPredicate(pa), e)
  }

  ghost predicate AllPredicates(env: Env, post: State, solutions: seq<Solution>) {
    forall i :: 0 <= i < |solutions| ==> QueryPredicate(env, post, solutions[i].solves).Found?
  }

  ghost function Solved(solutions: seq<Solution>): set<PredicateAddress> {
    set i | 0 <= i < |solutions| :: solutions[i].solves
  }

  /** The predicates a set's solutions solve, by address. */
  ghost function PredicateMap(env: Env, post: State, solutions: seq<Solution>): map<PredicateAddress, Predicate> {
    map pa | pa in Solved(solutions) && QueryPredicate(env, post, pa).Found? :: QueryPredicate(env, post, pa).value
  }

  ghost function Needed(preds: map<PredicateAddress, Predicate>): set<Addr> {
    set pa, i | pa in preds && 0 <= i < |preds[pa].nodes| :: preds[pa].nodes[i]
  }

  ghost predicate AllPrograms(env: Env, post: State, preds: map<PredicateAddress, Predicate>) {
    forall a :: a in Needed(preds) ==> QueryProgram(env, post, a).Found?
  }

  ghost function ProgramMap(env: Env, post: State, preds: map<PredicateAddress, Predicate>): map<Addr, Blob> {
    map a | a in Needed(preds) && QueryProgram(env, post, a).Found? :: QueryProgram(env, post, a).value
  }

  /** What checking one set between two states means: its gas, or nothing if it does not pass. */
  ghost function CheckSet(env: Env, pre: State, post: State, s: SolutionSet): Option<Gas> {
    var preds := PredicateMap(env, post, s.solutions);
    if AllPredicates(env, post, s.solutions) && AllPrograms(env, post, preds)
    then env.vm.check(s, preds, ProgramMap(env, post, preds), pre, post)
    else None
  }

  /** A predicate is fetched exactly if its contract lists it, there is an entry for it, the entry is a non-negative
      length followed by words, and their bytes up to that length decode to it. It is absent if either slot is
      empty, and malformed otherwise.
   */
  lemma QueryPredicateIs(env: Env, post: State, pa: PredicateAddress, p: Predicate)
    ensures
      var (mark, entry) :=
        ((env.contracts, Registry.ContractPredicateKey(pa.contract, pa.pred)), (env.contracts, Registry.PredicateKey(pa.pred)));
      && (QueryPredicate(env, post, pa).Absent? <==> mark !in post || entry !in post)
      && (QueryPredicate(env, post, pa) == Found(p) <==>
            mark in post && entry in post && exists bytes :: Holds(post[entry], bytes) && env.vm.decode(bytes) == Some(p))
      && (QueryPredicate(env, post, pa).Malformed? <==>
            mark in post && entry in post && forall bytes :: Holds(post[entry], bytes) ==> env.vm.decode(bytes) == None)
  {
    var entry := (env.contracts, Registry.PredicateKey(pa.pred));
    if entry in post {
      HoldsOne(post[entry]);
    }
  }

  lemma QueryProgramIs(env: Env, post: State, program: Addr, bytes: Blob)
    ensures
      var slot := (env.programs, Registry.ProgramKey(program));
      && (QueryProgram(env, post, program).Absent? <==> slot !in post)
      && (QueryProgram(env, post, program) == Found(bytes) <==> slot in post && Holds(post[slot], bytes))
      && (QueryProgram(env, post, program).Malformed? <==> slot in post && (post[slot] == [] || post[slot][0] < 0))
  {
    var slot := (env.programs, Registry.ProgramKey(program));
    if slot in post {
      HoldsOne(post[slot]);
      Registry.DecodeIsPrefix(post[slot], bytes);
    }
  }

  /** A registry entry stands for these bytes: a non-negative length, then words whose bytes up to it they are. */
  ghost predicate Holds(value: Value, bytes: Blob) {
    && value != [] && value[0] >= 0 && bytes <= Words.BlobFromWords(value[1..])
    && |bytes| == if value[0] < 8 * (|value| - 1) then value[0] else 8 * (|value| - 1)
  }

  /** An entry stands for at most one byte string, the one it decodes to, and for none if it is empty or its length
      negative.
   */
  lemma HoldsOne(value: Value)
    ensures forall bytes :: Holds(value, bytes) <==> Registry.Decode(value) == Ok(bytes)
    ensures Registry.Decode(value).Err? <==> value == [] || value[0] < 0
  {
    forall bytes ensures Holds(value, bytes) <==> Registry.Decode(value) == Ok(bytes) {
      Registry.DecodeIsPrefix(value, bytes);
    }
    Registry.DecodeIsPrefix(value, []);
  }

  // ---------------------------------------------------------------- what a set is checked with

  ghost function MarkSlot(env: Env, pa: PredicateAddress): Slot {
    (env.contracts, Registry.ContractPredicateKey(pa.contract, pa.pred))
  }

  ghost function EntrySlot(env: Env, pa: PredicateAddress): Slot {
    (env.contracts, Registry.PredicateKey(pa.pred))
  }

  ghost function ProgramSlot(env: Env, a: Addr): Slot {
    (env.programs, Registry.ProgramKey(a))
  }

  /** The state registers this predicate at this address. */
  ghost predicate Registered(env: Env, post: State, pa: PredicateAddress, p: Predicate) {
    && MarkSlot(env, pa) in post && EntrySlot(env, pa) in post
    && exists bytes :: Holds(post[EntrySlot(env, pa)], bytes) && env.vm.decode(bytes) == Some(p)
  }

  ghost predicate HasPredicate(env: Env, post: State, pa: PredicateAddress) {
    exists p :: Registered(env, post, pa, p)
  }

  ghost predicate HasProgram(env: Env, post: State, a: Addr) {
    ProgramSlot(env, a) in post && exists bytes :: Holds(post[ProgramSlot(env, a)], bytes)
  }

  /** The predicates a set is to be checked with: those its solutions solve, as the state registers them. */
  ghost predicate RightPredicates(env: Env, post: State, solutions: seq<Solution>, preds: map<PredicateAddress, Predicate>) {
    && (forall pa :: pa in preds <==> exists i :: 0 <= i < |solutions| && solutions[i].solves == pa)
    && (forall pa :: pa in preds ==> Registered(env, post, pa, preds[pa]))
  }

  /** And the programs: those that the nodes of these predicates name. */
  ghost predicate RightPrograms(env: Env, post: State, preds: map<PredicateAddress, Predicate>, programs: map<Addr, Blob>) {
    && (forall a :: a in programs <==> exists pa, i :: pa in preds && 0 <= i < |preds[pa].nodes| && preds[pa].nodes[i] == a)
    && (forall a :: a in programs ==> ProgramSlot(env, a) in post && Holds(post[ProgramSlot(env, a)], programs[a]))
  }

  lemma RegisteredIsFound(env: Env, post: State, pa: PredicateAddress)
    ensures forall p :: Registered(env, post, pa, p) <==> QueryPredicate(env, post, pa) == Found(p)
    ensures HasPredicate(env, post, pa) <==> QueryPredicate(env, post, pa).Found?
    ensures QueryPredicate(env, post, pa).Absent? <==> MarkSlot(env, pa) !in post || EntrySlot(env, pa) !in post
  {
    forall p ensures Registered(env, post, pa, p) <==> QueryPredicate(env, post, pa) == Found(p) {
      QueryPredicateIs(env, post, pa, p);
    }
    QueryPredicateIs(env, post, pa, Predicate([], []));
    hide QueryPredicate;
    assert QueryPredicate(env, post, pa).Found? ==> Registered(env, post, pa, QueryPredicate(env, post, pa).value);
  }

  lemma ProgramIsFound(env: Env, post: State, a: Addr)
    ensures forall bytes ::
      ProgramSlot(env, a) in post && Holds(post[ProgramSlot(env, a)], bytes) <==> QueryProgram(env, post, a) == Found(bytes)
    ensures HasProgram(env, post, a) <==> QueryProgram(env, post, a).Found?
    ensures QueryProgram(env, post, a).Absent? <==> ProgramSlot(env, a) !in post
    ensures QueryProgram(env, post, a).Malformed? <==>
      ProgramSlot(env, a) in post && (post[ProgramSlot(env, a)] == [] || post[ProgramSlot(env, a)][0] < 0)
  {
    forall bytes
      ensures ProgramSlot(env, a) in post && Holds(post[ProgramSlot(env, a)], bytes) <==> QueryProgram(env, post, a) == Found(bytes)
    {
      QueryProgramIs(env, post, a, bytes);
    }
    QueryProgramIs(env, post, a, []);
    hide QueryProgram, Holds;
    assert QueryProgram(env, post, a).Found? ==> Holds(post[ProgramSlot(env, a)], QueryProgram(env, post, a).value);
  }

  /** Fetching gives the right predicates, and only those are right. */
  lemma RightPredicatesAre(env: Env, post: State, solutions: seq<Solution>, preds: map<PredicateAddress, Predicate>)
    ensures RightPredicates(env, post, solutions, preds) <==>
      AllPredicates(env, post, solutions) && preds == PredicateMap(env, post, solutions)
  {
    hide QueryPredicate, Registered, HasPredicate;
    forall pa ensures forall p :: Registered(env, post, pa, p) <==> QueryPredicate(env, post, pa) == Found(p) {
      RegisteredIsFound(env, post, pa);
    }
    forall pa ensures pa in Solved(solutions) <==> exists i :: 0 <= i < |solutions| && solutions[i].solves == pa {}
    if RightPredicates(env, post, solutions, preds) {
      forall i | 0 <= i < |solutions| ensures QueryPredicate(env, post, solutions[i].solves).Found? {
        assert solutions[i].solves in preds;
      }
      assert preds.Keys == PredicateMap(env, post, solutions).Keys;
    }
  }

  lemma RightProgramsAre(env: Env, post: State, preds: map<PredicateAddress, Predicate>, programs: map<Addr, Blob>)
    ensures RightPrograms(env, post, preds, programs) <==> AllPrograms(env, post, preds) && programs == ProgramMap(env, post, preds)
  {
    hide QueryProgram, Holds, HasProgram;
    forall a
      ensures forall bytes ::
      ProgramSlot(env, a) in post && Holds(post[ProgramSlot(env, a)], bytes) <==> QueryProgram(env, post, a) == Found(bytes)
    {
      ProgramIsFound(env, post, a);
    }
    forall a ensures a in Needed(preds) <==> exists pa, i :: pa in preds && 0 <= i < |preds[pa].nodes| && preds[pa].nodes[i] == a {}
    if RightPrograms(env, post, preds, programs) {
      forall a | a in Needed(preds) ensures QueryProgram(env, post, a).Found? {
        assert a in programs;
      }
      assert programs.Keys == ProgramMap(env, post, preds).Keys;
    }
  }

  lemma OnlyRight(env: Env, post: State, solutions: seq<Solution>)
    ensures
      var preds := PredicateMap(env, post, solutions);
      var programs := ProgramMap(env, post, preds);
      && (AllPredicates(env, post, solutions) && AllPrograms(env, post, preds) ==>
            RightPredicates(env, post, solutions, preds) && RightPrograms(env, post, preds, programs))
      && (forall ps, qs :: RightPredicates(env, post, solutions, ps) && RightPrograms(env, post, ps, qs) ==>
            AllPredicates(env, post, solutions) && AllPrograms(env, post, preds) && ps == preds && qs == programs)
  {
    hide RightPredicates, RightPrograms, AllPredicates, PredicateMap, AllPrograms, ProgramMap;
    var preds := PredicateMap(env, post, solutions);
    RightPredicatesAre(env, post, solutions, preds);
    RightProgramsAre(env, post, preds, ProgramMap(env, post, preds));
    forall ps, qs | RightPredicates(env, post, solutions, ps) && RightPrograms(env, post, ps, qs)
      ensures AllPredicates(env, post, solutions) && AllPrograms(env, post, preds) && ps == preds && qs == ProgramMap(env, post, preds)
    {
      RightPredicatesAre(env, post, solutions, ps);
      RightProgramsAre(env, post, ps, qs);
    }
  }

  /** A set passes with some gas exactly if the machine passes it with that gas, given the right predicates and the
      right programs. There is at most one choice of them, and none if one of them is not registered.
   */
  lemma CheckSetIs(env: Env, pre: State, post: State, s: SolutionSet, g: Gas)
    ensures CheckSet(env, pre, post, s) == Some(g) <==>
      exists preds, programs ::
        && RightPredicates(env, post, s.solutions, preds) && RightPrograms(env, post, preds, programs)
        && env.vm.check(s, preds, programs, pre, post) == Some(g)
  {
    hide RightPredicates, RightPrograms, AllPredicates, PredicateMap, AllPrograms, ProgramMap;
    OnlyRight(env, post, s.solutions);
  }

  /** `query_solution_set_predicates`: in order, stopping at the first that is absent or malformed. */
  method QuerySolutionSetPredicates(env: Env, post: State, solutions: seq<Solution>)
    returns (r: Result<map<PredicateAddress, Predicate>, Failure>)
    ensures r.Ok? <==> AllPredicates(env, post, solutions)
    ensures r.Ok? ==> r.value == PredicateMap(env, post, solutions)
    ensures r.Err? ==> exists k :: 0 <= k < |solutions| && FirstBadPredicate(env, post, solutions, k, r.error)
  {
    hide QueryPredicate;
    var preds := map[];
    for k := 0 to |solutions|
      invariant AllPredicates(env, post, solutions[..k])
      invariant preds == PredicateMap(env, post, solutions[..k])
    {
      var pa := solutions[k].solves;
      match QueryPredicate(env, post, pa)
      case Absent =>
        assert FirstBadPredicate(env, post, solutions, k, MissingPredicate(pa));
        return Err(MissingPredicate(pa));
      case Malformed =>
        assert FirstBadPredicate(env, post, solutions, k, InvalidPredicate(pa));
        return Err(InvalidPredicate(pa));
      case Found(pred) =>
        assert Solved(solutions[..k + 1]) == Solved(solutions[..k]) + {pa} by {
          assert solutions[..k + 1] == solutions[..k] + [solutions[k]];
          SolvedAppend(solutions[..k], solutions[k]);
        }
        preds := preds[pa := pred];
    }
    assert solutions[..|solutions|] == solutions;
    return Ok(preds);
  }

  lemma SolvedAppend(solutions: seq<Solution>, s: Solution)
    ensures Solved(solutions + [s]) == Solved(solutions) + {s.solves}
  {
    forall pa | pa in Solved(solutions) ensures pa in Solved(solutions + [s]) {
      var i :| 0 <= i < |solutions| && solutions[i].solves == pa;
      assert (solutions + [s])[i].solves == pa;
    }
    assert (solutions + [s])[|solutions|].solves == s.solves;
  }

  /** `query_predicates_programs`: the predicates come in no particular order, so of several programs
      that cannot be fetched any may be the one reported.
   */
  method QueryPredicatesPrograms(env: Env, post: State, preds: map<PredicateAddress, Predicate>)
    returns (r: Result<map<Addr, Blob>, Failure>)
    ensures r.Ok? <==> AllPrograms(env, post, preds)
    ensures r.Ok? ==> r.value == ProgramMap(env, post, preds)
    ensures r.Err? ==> exists a :: a in Needed(preds) && Blames(QueryProgram(env, post, a), MissingProgram(a), InvalidProgram(a), r.error)
  {
    hide QueryProgram;
    var programs: map<Addr, Blob> := map[];
    var todo := preds.Keys;
    while todo != {}
      invariant todo <= preds.Keys
      invariant programs.Keys == Needed(Without(preds, todo))
      invariant forall a :: a in programs ==> QueryProgram(env, post, a) == Found(programs[a])
      decreases todo
    {
      var pa :| pa in todo;
      var nodes := preds[pa].nodes;
      ghost var before := programs;
      for i := 0 to |nodes|
        invariant programs.Keys == before.Keys + (set j | 0 <= j < i :: nodes[j])
        invariant forall a :: a in programs ==> QueryProgram(env, post, a) == Found(programs[a])
      {
        assert nodes[i] in Needed(preds);
        match QueryProgram(env, post, nodes[i])
        case Absent => return Err(MissingProgram(nodes[i]));
        case Malformed => return Err(InvalidProgram(nodes[i]));
        case Found(program) => programs := programs[nodes[i] := program];
      }
      NeededStep(preds, todo, pa);
      todo := todo - {pa};
    }
    assert Without(preds, {}) == preds;
    return Ok(programs);
  }

  ghost function Without(preds: map<PredicateAddress, Predicate>, todo: set<PredicateAddress>): map<PredicateAddress, Predicate> {
    preds - todo
  }

  lemma NeededStep(preds: map<PredicateAddress, Predicate>, todo: set<PredicateAddress>, pa: PredicateAddress)
    requires pa in todo && todo <= preds.Keys
    ensures Needed(Without(preds, todo - {pa})) == Needed(Without(preds, todo)) + (set j | 0 <= j < |preds[pa].nodes| :: preds[pa].nodes[j])
  {
    var less, more := Without(preds, todo), Without(preds, todo - {pa});
    forall a | a in Needed(more) ensures a in Needed(less) || a in (set j | 0 <= j < |preds[pa].nodes| :: preds[pa].nodes[j]) {
      var p, i :| p in more && 0 <= i < |more[p].nodes| && more[p].nodes[i] == a;
      if p != pa {
        assert p in less && less[p] == more[p];
      }
    }
    forall a | a in Needed(less) ensures a in Needed(more) {
      var p, i :| p in less && 0 <= i < |less[p].nodes| && less[p].nodes[i] == a;
      assert p in more && more[p] == less[p];
    }
    forall j | 0 <= j < |preds[pa].nodes| ensures preds[pa].nodes[j] in Needed(more) {
      assert pa in more && more[pa] == preds[pa];
    }
  }

  // ---------------------------------------------------------------- verdicts

  /** Gas used by the first `k` sets. */
  ghost function GasSum(gas: seq<Option<Gas>>, k: nat): nat
    requires k <= |gas|
  {
    if k == 0 then 0 else GasSum(gas, k - 1) + if gas[k - 1].Some? then gas[k - 1].value else 0
  }

  /** The first `k` sets pass, and their gas fits in 64 bits. */
  ghost predicate Passes(gas: seq<Option<Gas>>, k: nat)
    requires k <= |gas|
  {
    (forall i :: 0 <= i < k ==> gas[i].Some?) && GasSum(gas, k) <= GAS_MAX
  }

  /** The verdict on sets with these results: valid with the total, or invalid at the least index
      that fails or overflows.
   */
  ghost predicate Judged(gas: seq<Option<Gas>>, r: Outcome) {
    match r
    case Valid(total) => Passes(gas, |gas|) && total == GasSum(gas, |gas|)
    case Invalid(failure, i) =>
      && i < |gas| && Passes(gas, i) && !Passes(gas, i + 1)
      && (failure == GasOverflow <==> gas[i].Some?)
  }

  lemma {:induction false} PassesPrefix(gas: seq<Option<Gas>>, i: nat, k: nat)
    requires i <= k <= |gas| && Passes(gas, k)
    ensures Passes(gas, i)
    decreases k
  {
    if i < k {
      PassesPrefix(gas, i, k - 1);
    }
  }

  /** There is one verdict, up to the reason given for a failure. */
  lemma OneVerdict(gas: seq<Option<Gas>>, r: Outcome, s: Outcome)
    requires Judged(gas, r) && Judged(gas, s)
    ensures r.Valid? <==> s.Valid?
    ensures r.Valid? ==> r.gas == s.gas
    ensures r.Invalid? ==> r.index == s.index
  {
    if r.Invalid? && s.Valid? {
      PassesPrefix(gas, r.index + 1, |gas|);
    } else if r.Valid? && s.Invalid? {
      PassesPrefix(gas, s.index + 1, |gas|);
    } else if r.Invalid? && s.Invalid? {
      if r.index < s.index {
        PassesPrefix(gas, r.index + 1, s.index);
      } else if s.index < r.index {
        PassesPrefix(gas, s.index + 1, r.index);
      }
    }
  }

  /** The results of a block's sets as its readers see state. */
  ghost function ReadGas(env: Env, db: Db, b: Block): (gas: seq<Option<Gas>>)
    ensures |gas| == |b.sets|
  {
    seq(|b.sets|, i requires 0 <= i < |b.sets| =>
      CheckSet(env, View(db, b.header.number, i, true), View(db, b.header.number, i, false), b.sets[i]))
  }

  /** The results of running a block's sets one after another from a state. */
  ghost function RunGas(env: Env, base: State, sets: seq<SolutionSet>): (gas: seq<Option<Gas>>)
    ensures |gas| == |sets|
  {
    seq(|sets|, i requires 0 <= i < |sets| =>
      CheckSet(env, ApplySets(base, sets[..i]), ApplySets(base, sets[..i + 1]), sets[i]))
  }

  /** Why a set does not pass. */
  ghost predicate Explains(env: Env, pre: State, post: State, s: SolutionSet, failure: Failure) {
    var preds := PredicateMap(env, post, s.solutions);
    match failure
    case MissingPredicate(_) => exists k :: 0 <= k < |s.solutions| && FirstBadPredicate(env, post, s.solutions, k, failure)
    case InvalidPredicate(_) => exists k :: 0 <= k < |s.solutions| && FirstBadPredicate(env, post, s.solutions, k, failure)
    case MissingProgram(a) => AllPredicates(env, post, s.solutions) && a in Needed(preds) && QueryProgram(env, post, a).Absent?
    case InvalidProgram(a) => AllPredicates(env, post, s.solutions) && a in Needed(preds) && QueryProgram(env, post, a).Malformed?
    case PredicatesError =>
      && AllPredicates(env, post, s.solutions) && AllPrograms(env, post, preds)
      && env.vm.check(s, preds, ProgramMap(env, post, preds), pre, post) == None
    case GasOverflow => CheckSet(env, pre, post, s).Some?
  }

  ghost predicate FirstUnregistered(env: Env, post: State, solutions: seq<Solution>, k: int) {
    && 0 <= k < |solutions| && !HasPredicate(env, post, solutions[k].solves)
    && forall i :: 0 <= i < k ==> HasPredicate(env, post, solutions[i].solves)
  }

  /** Some predicate of the set names this program. */
  ghost predicate Names(env: Env, post: State, solutions: seq<Solution>, a: Addr) {
    exists k, p, i :: NamedAt(env, post, solutions, a, k, p, i)
  }

  ghost predicate NamedAt(env: Env, post: State, solutions: seq<Solution>, a: Addr, k: int, p: Predicate, i: int) {
    0 <= k < |solutions| && Registered(env, post, solutions[k].solves, p) && 0 <= i < |p.nodes| && p.nodes[i] == a
  }

  /** One turn of the loop of `validate_inner`. The first predicate that the state does not register is what is
      reported: as missing if its contract does not list it or it has no entry, and otherwise as invalid. If all are
      registered, a program that some predicate names may be reported, as missing if it has no entry, and as invalid
      if its entry is empty or begins with a negative length. If those are registered as well, the machine decides.
   */
  method ValidateSet(env: Env, pre: State, post: State, s: SolutionSet) returns (r: Result<Gas, Failure>)
    ensures CheckSet(env, pre, post, s) == if r.Ok? then Some(r.value) else None
    ensures r.Err? ==> r.error != GasOverflow && Explains(env, pre, post, s, r.error)
    ensures r.Ok? ==> forall i :: 0 <= i < |s.solutions| ==>
      var (mark, entry) := (MarkSlot(env, s.solutions[i].solves), EntrySlot(env, s.solutions[i].solves));
      mark in post && entry in post && post[entry] != [] && post[entry][0] >= 0
    ensures r.Ok? || r == Err(PredicatesError) ==>
      exists preds, programs ::
        && RightPredicates(env, post, s.solutions, preds) && RightPrograms(env, post, preds, programs)
        && env.vm.check(s, preds, programs, pre, post) == if r.Ok? then Some(r.value) else None
    ensures forall k :: FirstUnregistered(env, post, s.solutions, k) ==>
      var pa := s.solutions[k].solves;
      r == Err(if MarkSlot(env, pa) !in post || EntrySlot(env, pa) !in post then MissingPredicate(pa) else InvalidPredicate(pa))
    ensures (forall i :: 0 <= i < |s.solutions| ==> HasPredicate(env, post, s.solutions[i].solves)) ==>
      match r
      case Err(MissingProgram(a)) => Names(env, post, s.solutions, a) && ProgramSlot(env, a) !in post
      case Err(InvalidProgram(a)) =>
        && Names(env, post, s.solutions, a) && ProgramSlot(env, a) in post
        && (post[ProgramSlot(env, a)] == [] || post[ProgramSlot(env, a)][0] < 0)
      case Err(e) => e == PredicatesError
      case Ok(_) => true
  {
    hide QueryPredicate, QueryProgram, PredicateMap, ProgramMap, Needed, Registered, HasPredicate, RightPredicates, RightPrograms, Names;
    BadPredicates(env, post, s.solutions);
    var preds := QuerySolutionSetPredicates(env, post, s.solutions);
    if preds.Err? {
      return Err(preds.error);
    }
    RightPredicatesAre(env, post, s.solutions, preds.value);
    var programs := QueryPredicatesPrograms(env, post, preds.value);
    if programs.Err? {
      BadPrograms(env, post, s.solutions, preds.value, programs.error);
      return Err(programs.error);
    }
    RightProgramsAre(env, post, preds.value, programs.value);
    match env.vm.check(s, preds.value, programs.value, pre, post)
    case Some(g) =>
      GoodEntries(env, post, s.solutions);
      return Ok(g);
    case None => return Err(PredicatesError);
  }

  /** The reasons a verdict may give, in terms of what the state registers. */
  lemma ExplainsIs(env: Env, pre: State, post: State, s: SolutionSet, e: Failure)
    ensures Explains(env, pre, post, s, e) <==>
      var registered := forall i :: 0 <= i < |s.solutions| ==> HasPredicate(env, post, s.solutions[i].solves);
      match e
      case MissingPredicate(pa) =>
        && (MarkSlot(env, pa) !in post || EntrySlot(env, pa) !in post)
        && exists k :: FirstUnregistered(env, post, s.solutions, k) && s.solutions[k].solves == pa
      case InvalidPredicate(pa) =>
        && MarkSlot(env, pa) in post && EntrySlot(env, pa) in post
        && exists k :: FirstUnregistered(env, post, s.solutions, k) && s.solutions[k].solves == pa
      case MissingProgram(a) => registered && Names(env, post, s.solutions, a) && ProgramSlot(env, a) !in post
      case InvalidProgram(a) =>
        && registered && Names(env, post, s.solutions, a) && ProgramSlot(env, a) in post
        && (post[ProgramSlot(env, a)] == [] || post[ProgramSlot(env, a)][0] < 0)
      case PredicatesError =>
        exists preds, programs ::
          && RightPredicates(env, post, s.solutions, preds) && RightPrograms(env, post, preds, programs)
          && env.vm.check(s, preds, programs, pre, post) == None
      case GasOverflow => exists g :: CheckSet(env, pre, post, s) == Some(g)
  {
    hide AllPredicates, AllPrograms, PredicateMap, ProgramMap, HasPredicate, FirstUnregistered, FirstBadPredicate, Names, Needed,
         RightPredicates, RightPrograms, CheckSet, QueryProgram;
    BadPredicates(env, post, s.solutions);
    match e
    case MissingPredicate(pa) => FirstBadIs(env, post, s.solutions, e);
    case InvalidPredicate(pa) => FirstBadIs(env, post, s.solutions, e);
    case MissingProgram(a) =>
      ProgramIsFound(env, post, a);
      NamesIs(env, post, s.solutions, a);
    case InvalidProgram(a) =>
      ProgramIsFound(env, post, a);
      NamesIs(env, post, s.solutions, a);
    case PredicatesError => RejectedIs(env, pre, post, s);
    case GasOverflow =>
  }

  lemma FirstBadIs(env: Env, post: State, solutions: seq<Solution>, e: Failure)
    requires e.MissingPredicate? || e.InvalidPredicate?
    ensures (exists k :: 0 <= k < |solutions| && FirstBadPredicate(env, post, solutions, k, e)) <==>
      && (e.MissingPredicate? <==> MarkSlot(env, e.pred) !in post || EntrySlot(env, e.pred) !in post)
      && exists k :: FirstUnregistered(env, post, solutions, k) && solutions[k].solves == e.pred
  {
    hide QueryPredicate, HasPredicate;
    forall k | 0 <= k < |solutions|
      ensures FirstBadPredicate(env, post, solutions, k, e) <==>
        && FirstUnregistered(env, post, solutions, k) && solutions[k].solves == e.pred
        && (e.MissingPredicate? <==> MarkSlot(env, e.pred) !in post || EntrySlot(env, e.pred) !in post)
    {
      BadPredicates(env, post, solutions[..k]);
      RegisteredIsFound(env, post, solutions[k].solves);
      assert forall i :: 0 <= i < k ==> solutions[..k][i] == solutions[i];
    }
  }

  lemma NamesIs(env: Env, post: State, solutions: seq<Solution>, a: Addr)
    ensures AllPredicates(env, post, solutions) ==> (Names(env, post, solutions, a) <==> a in Needed(PredicateMap(env, post, solutions)))
  {
    hide QueryPredicate, Registered, HasPredicate;
    var preds := PredicateMap(env, post, solutions);
    if AllPredicates(env, post, solutions) {
      RightPredicatesAre(env, post, solutions, preds);
      if a in Needed(preds) {
        var pa, i :| pa in preds && 0 <= i < |preds[pa].nodes| && preds[pa].nodes[i] == a;
        var k :| 0 <= k < |solutions| && solutions[k].solves == pa;
        assert NamedAt(env, post, solutions, a, k, preds[pa], i);
      }
      if Names(env, post, solutions, a) {
        var k, p, i :| NamedAt(env, post, solutions, a, k, p, i);
        RegisteredIsFound(env, post, solutions[k].solves);
        assert solutions[k].solves in preds && preds[solutions[k].solves] == p;
      }
    }
  }

  lemma RejectedIs(env: Env, pre: State, post: State, s: SolutionSet)
    ensures Explains(env, pre, post, s, PredicatesError) <==>
      exists preds, programs ::
        && RightPredicates(env, post, s.solutions, preds) && RightPrograms(env, post, preds, programs)
        && env.vm.check(s, preds, programs, pre, post) == None
  {
    hide RightPredicates, RightPrograms, AllPredicates, PredicateMap, AllPrograms, ProgramMap;
    OnlyRight(env, post, s.solutions);
  }

  lemma GoodEntries(env: Env, post: State, solutions: seq<Solution>)
    requires AllPredicates(env, post, solutions)
    ensures forall i :: 0 <= i < |solutions| ==>
      var (mark, entry) := (MarkSlot(env, solutions[i].solves), EntrySlot(env, solutions[i].solves));
      mark in post && entry in post && post[entry] != [] && post[entry][0] >= 0
  {
    hide QueryPredicate;
    forall i | 0 <= i < |solutions| ensures HasPredicate(env, post, solutions[i].solves) {
      RegisteredIsFound(env, post, solutions[i].solves);
    }
  }

  /** The first predicate that is not registered is the one blamed, and for what is wrong with it. */
  lemma BadPredicates(env: Env, post: State, solutions: seq<Solution>)
    ensures AllPredicates(env, post, solutions) <==> forall i :: 0 <= i < |solutions| ==> HasPredicate(env, post, solutions[i].solves)
    ensures forall j, e, k ::
      0 <= j < |solutions| && FirstBadPredicate(env, post, solutions, j, e) && FirstUnregistered(env, post, solutions, k) ==>
      var pa := solutions[k].solves;
      e == if MarkSlot(env, pa) !in post || EntrySlot(env, pa) !in post then MissingPredicate(pa) else InvalidPredicate(pa)
  {
    hide QueryPredicate, HasPredicate;
    forall pa
      ensures HasPredicate(env, post, pa) <==> QueryPredicate(env, post, pa).Found?
      ensures QueryPredicate(env, post, pa).Absent? <==> MarkSlot(env, pa) !in post || EntrySlot(env, pa) !in post
    {
      RegisteredIsFound(env, post, pa);
    }
    forall j, e, k | 0 <= j < |solutions| && FirstBadPredicate(env, post, solutions, j, e) && FirstUnregistered(env, post, solutions, k)
      ensures j == k
    {
      assert QueryPredicate(env, post, solutions[j].solves).Found? == HasPredicate(env, post, solutions[j].solves);
      assert forall i :: 0 <= i < j ==> solutions[..j][i] == solutions[i];
    }
  }

  lemma BadPrograms(env: Env, post: State, solutions: seq<Solution>, preds: map<PredicateAddress, Predicate>, e: Failure)
    requires RightPredicates(env, post, solutions, preds)
    requires exists a :: a in Needed(preds) && Blames(QueryProgram(env, post, a), MissingProgram(a), InvalidProgram(a), e)
    ensures e.MissingProgram? || e.InvalidProgram?
    ensures Names(env, post, solutions, e.program)
    ensures e.MissingProgram? ==> ProgramSlot(env, e.program) !in post
    ensures e.InvalidProgram? ==>
      var slot := ProgramSlot(env, e.program);
      slot in post && (post[slot] == [] || post[slot][0] < 0)
  {
    hide QueryProgram, Registered;
    var a :| a in Needed(preds) && Blames(QueryProgram(env, post, a), MissingProgram(a), InvalidProgram(a), e);
    ProgramIsFound(env, post, a);
    var pa, i :| pa in preds && 0 <= i < |preds[pa].nodes| && preds[pa].nodes[i] == a;
    var k :| 0 <= k < |solutions| && solutions[k].solves == pa;
    assert NamedAt(env, post, solutions, a, k, preds[pa], i);
  }

  /** `validate_inner`. */
  method ValidateInner(env: Env, db: Db, b: Block) returns (r: Outcome)
    ensures Judged(ReadGas(env, db, b), r)
    ensures r.Invalid? ==>
      r.index < |b.sets| &&
      Explains(env, View(db, b.header.number, r.index, true), View(db, b.header.number, r.index, false), b.sets[r.index], r.failure)
  {
    hide CheckSet, Explains, View;
    var total: Gas := 0;
    ghost var gas := ReadGas(env, db, b);
    for i := 0 to |b.sets|
      invariant Passes(gas, i) && total == GasSum(gas, i)
    {
      var pre := View(db, b.header.number, i, true);
      var post := View(db, b.header.number, i, false);
      var checked := ValidateSet(env, pre, post, b.sets[i]);
      match checked
      case Err(failure) => return Invalid(failure, i);
      case Ok(g) =>
        if total + g > GAS_MAX {
          OverflowExplains(env, pre, post, b.sets[i]);
          return Invalid(GasOverflow, i);
        }
        total := total + g;
    }
    return Valid(total);
  }

  lemma OverflowExplains(env: Env, pre: State, post: State, s: SolutionSet)
    requires CheckSet(env, pre, post, s).Some?
    ensures Explains(env, pre, post, s, GasOverflow)
  {
  }

  // ---------------------------------------------------------------- validation is sequential execution

  /** The results of a block's sets, each checked between the states that the chain holds before and after
      its position. The block need not be the one the chain has at its number.
   */
  ghost function PositionGas(env: Env, chain: Chain, b: Block): (gas: seq<Option<Gas>>)
    ensures |gas| == |b.sets|
  {
    seq(|b.sets|, i requires 0 <= i < |b.sets| =>
      CheckSet(env, StateAt(chain, b.header.number, i), StateAt(chain, b.header.number, i + 1), b.sets[i]))
  }

  lemma DiskReadsPositions(env: Env, db: Database, b: Block)
    requires db.Valid() && ClearTo(db.Chain(), UpTo(b.header.number, |b.sets|))
    ensures ReadGas(env, Disk(db.tables), b) == PositionGas(env, db.Chain(), b)
  {
    var n := b.header.number;
    hide Rep, Tallied, Linked, View, CheckSet, StateAt, ClearTo;
    forall i | 0 <= i < |b.sets|
      ensures View(Disk(db.tables), n, i, true) == StateAt(db.Chain(), n, i)
      ensures View(Disk(db.tables), n, i, false) == StateAt(db.Chain(), n, i + 1)
    {
      ClearSooner(db.Chain(), n, i, |b.sets|);
      ClearSooner(db.Chain(), n, i + 1, |b.sets|);
      DiskView(db, n, i, true);
      DiskView(db, n, i, false);
    }
  }

  lemma StateWithin(chain: Chain, n: int, k: nat)
    requires n in chain && k <= |chain[n].sets|
    ensures StateAt(chain, n, k) == ApplySets(Replay(Before(chain, n)), chain[n].sets[..k])
  {
    assert chain[n].sets[..|chain[n].sets|] == chain[n].sets;
  }

  /** At its own place in the chain, a block's sets are checked exactly as if they were run one after another
      on the replay of the chain below: the pre-state of each set is the post-state of the one before it.
   */
  lemma PositionsRunInSequence(env: Env, chain: Chain, b: Block)
    requires b.header.number in chain && chain[b.header.number] == b
    ensures PositionGas(env, chain, b) == RunGas(env, Replay(Before(chain, b.header.number)), b.sets)
  {
    hide CheckSet, StateAt, Replay, Prefix, ApplySets;
    forall i | 0 <= i <= |b.sets|
      ensures StateAt(chain, b.header.number, i) == ApplySets(Replay(Before(chain, b.header.number)), b.sets[..i])
    {
      StateWithin(chain, b.header.number, i);
    }
  }

  /** Running sets one after another: each is checked between the state it starts from and the one it leaves, and the
      run stops at the first that does not pass, or whose gas makes the total too great for 64 bits.
   */
  datatype Executed = Finished(state: State, total: nat) | StoppedAt(index: nat, overflow: bool)

  ghost function Execute(env: Env, state: State, sets: seq<SolutionSet>, spent: nat): Executed
    decreases |sets|
  {
    if sets == [] then Finished(state, spent)
    else
      var next := ApplySet(state, sets[0]);
      match CheckSet(env, state, next, sets[0])
      case None => StoppedAt(0, false)
      case Some(g) =>
        if spent + g >= 0x1_0000_0000_0000_0000 then StoppedAt(0, true)
        else
          match Execute(env, next, sets[1..], spent + g)
          case Finished(last, total) => Finished(last, total)
          case StoppedAt(i, overflow) => StoppedAt(i + 1, overflow)
  }

  /** Adding the result of one more set. */
  lemma PassOne(gas: seq<Option<Gas>>, i: nat)
    requires i < |gas| && Passes(gas, i)
    ensures gas[i].None? ==> !Passes(gas, i + 1)
    ensures gas[i].Some? ==>
      && GasSum(gas, i + 1) == GasSum(gas, i) + gas[i].value
      && (Passes(gas, i + 1) <==> GasSum(gas, i) + gas[i].value <= GAS_MAX)
  {
  }

  /** What is left of a run after `k` sets ends as the results say. */
  ghost predicate EndsAs(gas: seq<Option<Gas>>, k: nat, last: State, e: Executed) {
    match e
    case Finished(state, total) => Passes(gas, |gas|) && total == GasSum(gas, |gas|) && state == last
    case StoppedAt(i, overflow) =>
      k + i < |gas| && Passes(gas, k + i) && !Passes(gas, k + i + 1) && (overflow <==> gas[k + i].Some?)
  }

  lemma {:induction false} ExecuteFrom(env: Env, base: State, sets: seq<SolutionSet>, k: nat)
    requires k <= |sets| && Passes(RunGas(env, base, sets), k)
    ensures
      var gas := RunGas(env, base, sets);
      EndsAs(gas, k, ApplySets(base, sets), Execute(env, ApplySets(base, sets[..k]), sets[k..], GasSum(gas, k)))
    decreases |sets| - k
  {
    hide Execute, RunGas, Passes, GasSum, ApplySets, CheckSet;
    var gas := RunGas(env, base, sets);
    if k == |sets| {
      assert sets[..k] == sets && sets[k..] == [];
      ExecuteNone(env, ApplySets(base, sets), GasSum(gas, k));
    } else {
      PassOne(gas, k);
      ExecuteOne(env, base, sets, k, GasSum(gas, k));
      if Passes(gas, k + 1) {
        ExecuteFrom(env, base, sets, k + 1);
      }
    }
  }

  lemma ExecuteNone(env: Env, state: State, spent: nat)
    ensures Execute(env, state, [], spent) == Finished(state, spent)
  {
  }

  lemma {:induction false} ExecuteOne(env: Env, base: State, sets: seq<SolutionSet>, k: nat, spent: nat)
    requires k < |sets|
    ensures
      var rest := Execute(env, ApplySets(base, sets[..k]), sets[k..], spent);
      match RunGas(env, base, sets)[k]
      case None => rest == StoppedAt(0, false)
      case Some(g) =>
        if spent + g > GAS_MAX then rest == StoppedAt(0, true)
        else
          match Execute(env, ApplySets(base, sets[..k + 1]), sets[k + 1..], spent + g)
          case Finished(state, total) => rest == Finished(state, total)
          case StoppedAt(i, overflow) => rest == StoppedAt(i + 1, overflow)
  {
    hide CheckSet, ApplySet;
    assert sets[..k + 1][..k] == sets[..k] && sets[k..][1..] == sets[k + 1..];
    assert ApplySets(base, sets[..k + 1]) == ApplySet(ApplySets(base, sets[..k]), sets[k]);
  }

  lemma {:induction false} ExecuteWhole(env: Env, base: State, sets: seq<SolutionSet>)
    ensures EndsAs(RunGas(env, base, sets), 0, ApplySets(base, sets), Execute(env, base, sets, 0))
  {
    hide Execute, RunGas, CheckSet, EndsAs;
    assert sets[..0] == [] && sets[0..] == sets;
    ExecuteFrom(env, base, sets, 0);
  }

  /** The verdict on a run is what running the sets one after another comes to: valid with its total if it finishes,
      and invalid at the set where it stops, for an overflow if it is one.
   */
  lemma {:induction false} VerdictIsExecution(env: Env, base: State, sets: seq<SolutionSet>, r: Outcome)
    ensures Judged(RunGas(env, base, sets), r) <==>
      match Execute(env, base, sets, 0)
      case Finished(_, total) => r.Valid? && r.gas == total
      case StoppedAt(i, overflow) => r.Invalid? && r.index == i && (r.failure == GasOverflow <==> overflow)
    ensures Execute(env, base, sets, 0).Finished? ==> Execute(env, base, sets, 0).state == ApplySets(base, sets)
  {
    hide Execute, RunGas, Passes, GasSum;
    var gas := RunGas(env, base, sets);
    ExecuteWhole(env, base, sets);
    match Execute(env, base, sets, 0)
    case Finished(_, total) =>
      PassesFits(gas);
      if Judged(gas, r) {
        OneVerdict(gas, r, Valid(total));
      }
    case StoppedAt(i, overflow) =>
      var failed := Invalid(if overflow then GasOverflow else PredicatesError, i);
      if Judged(gas, r) {
        OneVerdict(gas, r, failed);
      }
  }

  lemma PassesFits(gas: seq<Option<Gas>>)
    ensures Passes(gas, |gas|) ==> GasSum(gas, |gas|) <= GAS_MAX
  {
  }

  lemma DiskRunsInSequence(env: Env, db: Database, b: Block)
    requires db.Valid() && ClearTo(db.Chain(), UpTo(b.header.number, |b.sets|))
    requires b.header.number in db.Chain() && db.Chain()[b.header.number] == b
    ensures ReadGas(env, Disk(db.tables), b) == RunGas(env, Replay(Before(db.Chain(), b.header.number)), b.sets)
  {
    hide Rep, Tallied, Linked, ReadGas, RunGas, PositionGas;
    DiskReadsPositions(env, db, b);
    PositionsRunInSequence(env, db.Chain(), b);
  }

  /** `validate`: where no set up to the block's last position is ambiguous, the verdict is that of checking
      each set between the states around its position, and for a finalized block that of a sequential run.
   */
  method ValidateOnDisk(env: Env, db: Database, b: Block) returns (r: Outcome)
    requires db.Valid()
    ensures r.Invalid? ==> r.index < |b.sets|
    ensures ClearTo(db.Chain(), UpTo(b.header.number, |b.sets|)) ==> Judged(PositionGas(env, db.Chain(), b), r)
    ensures
      var (n, chain) := (b.header.number, db.Chain());
      ClearTo(chain, UpTo(n, |b.sets|)) && n in chain && chain[n] == b ==>
        && Judged(RunGas(env, Replay(Before(chain, n)), b.sets), r)
        && match Execute(env, Replay(Before(chain, n)), b.sets, 0)
           case Finished(_, total) => r.Valid? && r.gas == total
           case StoppedAt(i, overflow) => r.Invalid? && r.index == i && (r.failure == GasOverflow <==> overflow)
  {
    hide Rep, Tallied, Linked, ReadGas, RunGas, PositionGas, Judged, ClearTo, Execute;
    if ClearTo(db.Chain(), UpTo(b.header.number, |b.sets|)) {
      DiskReadsPositions(env, db, b);
    }
    if b.header.number in db.Chain() && db.Chain()[b.header.number] == b {
      PositionsRunInSequence(env, db.Chain(), b);
    }
    r := ValidateInner(env, Disk(db.tables), b);
    VerdictIsExecution(env, Replay(Before(db.Chain(), b.header.number)), b.sets, r);
  }
}
