/**
 The table of JavaScript values a Go WebAssembly program holds references to: a reference-counted
 allocator of ids with a free list, an inverse map, and references boxed in the payload of a NaN.
 The reference it is proved against is a multiset: the values Go holds, one occurrence per reference.
 */
module ValueTable {
  import opened Wrappers
  import opened Bytes
  import opened LinearMemory

  // ---------- JavaScript values ----------

  predicate IsNanBits(hi: u32, lo: u32) {
    var magnitude := hi % 0x8000_0000;
    magnitude > 0x7FF0_0000 || (magnitude == 0x7FF0_0000 && lo != 0)
  }

  predicate IsZeroBits(hi: u32, lo: u32) {
    hi % 0x8000_0000 == 0 && lo == 0
  }

  /** By the fields of the format: all eleven exponent bits set and a non-zero fraction; or nothing but a sign. */
  lemma DoubleWords(hi: u32, lo: u32)
    ensures IsNanBits(hi, lo) <==> hi / 0x10_0000 % 0x800 == 0x7FF && (hi % 0x10_0000 != 0 || lo != 0)
    ensures IsZeroBits(hi, lo) <==> (hi == 0 || hi == 0x8000_0000) && lo == 0
  {}

  /** A double: the one NaN value, or the two words of its IEEE 754 representation. */
  datatype RawNumber = NaN | Bits(hi: u32, lo: u32)

  type Number = n: RawNumber | n.Bits? ==> !IsNanBits(n.hi, n.lo) witness NaN

  datatype Value =
    | Undefined | Null | Bool(b: bool) | Num(n: Number) | BigInt(i: int)
    | Str(s: string) | Symbol(ref: nat) | Function(ref: nat) | Object(ref: nat)

  const ZERO: Value := Num(Bits(0, 0))
  const GLOBAL_THIS: Value := Object(0)
  const GO: Value := Object(1)

  predicate IsZero(v: Value) {
    v.Num? && v.n.Bits? && IsZeroBits(v.n.hi, v.n.lo)
  }

  /** The key a Map files v under: keys compare by SameValueZero, so both zeros are one key. */
  function Key(v: Value): Value {
    if IsZero(v) then ZERO else v
  }

  /** Values boxed by id rather than written as a number or as zero bits. */
  predicate Tabled(v: Value) {
    !v.Undefined? && (v.Num? ==> IsZero(v))
  }

  // ---------- the table as a value ----------

  datatype Count = Infinite | Finite(n: int)

  function Up(c: Count): Count {
    match c case Infinite => Infinite case Finite(n) => Finite(n + 1)
  }

  function Down(c: Count): Count {
    match c case Infinite => Infinite case Finite(n) => Finite(n - 1)
  }

  datatype Table = Table(values: seq<Value>, counts: seq<Count>, ids: map<Value, nat>, pool: seq<nat>)

  const PRESETS: seq<Value> := [Num(NaN), ZERO, Null, Bool(true), Bool(false), GLOBAL_THIS, GO]

  function InitialTable(): Table {
    Table(PRESETS, seq(7, _ => Infinite),
          map[ZERO := 1, Null := 2, Bool(true) := 3, Bool(false) := 4, GLOBAL_THIS := 5, GO := 6], [])
  }

  /** The id v gets: its own, else the most recently freed one, else a new one at the end. */
  function IdFor(t: Table, v: Value): nat {
    if Key(v) in t.ids then t.ids[Key(v)]
    else if t.pool != [] then t.pool[|t.pool| - 1]
    else |t.values|
  }

  function Add(t: Table, v: Value): Table
    requires |t.counts| == |t.values|
    requires forall id :: id in t.pool ==> id < |t.values|
    requires forall k :: k in t.ids ==> t.ids[k] < |t.values|
  {
    var id := IdFor(t, v);
    if Key(v) in t.ids then t.(counts := t.counts[id := Up(t.counts[id])])
    else if t.pool != [] then
      assert id in t.pool;
      Table(t.values[id := v], t.counts[id := Finite(1)], t.ids[Key(v) := id], t.pool[..|t.pool| - 1])
    else
      Table(t.values + [v], t.counts + [Finite(1)], t.ids[Key(v) := id], t.pool)
  }

  function Release(t: Table, id: nat): Table
    requires id < |t.values| == |t.counts|
  {
    var counts := t.counts[id := Down(t.counts[id])];
    if counts[id] == Finite(0) then
      Table(t.values[id := Null], counts, t.ids - {Key(t.values[id])}, t.pool + [id])
    else t.(counts := counts)
  }

  // ---------- the invariant ----------

  predicate Live(t: Table, id: nat) {
    Used(t.values, t.pool, id)
  }

  predicate Used(values: seq<Value>, pool: seq<nat>, id: nat) {
    id < |values| && id !in pool
  }

  ghost predicate Distinct(ids: seq<nat>) {
    forall i, j :: 0 <= i < j < |ids| ==> ids[i] != ids[j]
  }

  /** References Go holds: what each non-preset table entry's count has to be. */
  type Refs = multiset<Value>

  ghost predicate Shape(t: Table) {
    && |t.counts| == |t.values| >= 7
    && t.values[..7] == PRESETS
    && (forall id :: 0 <= id < 7 ==> t.counts[id] == Infinite)
    && Distinct(t.pool)
    && (forall id :: id in t.pool ==> 7 <= id < |t.values| && t.values[id] == Null && t.counts[id] == Finite(0))
  }

  /** ids is the inverse of the live part of the table, NaN at id 0 apart. */
  ghost predicate Inverse(t: Table) {
    InverseOf(t.values, t.ids, t.pool)
  }

  ghost predicate InverseOf(values: seq<Value>, ids: map<Value, nat>, pool: seq<nat>) {
    && (forall k :: k in ids ==> 1 <= ids[k] && Used(values, pool, ids[k]) && Key(values[ids[k]]) == k && Tabled(k))
    && (forall id :: 1 <= id < |values| && Used(values, pool, id) ==>
        Key(values[id]) in ids && ids[Key(values[id])] == id)
  }

  /** The counts are the multiplicities of the references Go holds. */
  ghost predicate Counted(t: Table, refs: Refs) {
    CountedOf(t.ids, t.counts, refs)
  }

  ghost predicate CountedOf(ids: map<Value, nat>, counts: seq<Count>, refs: Refs) {
    && (forall k :: k in ids && 7 <= ids[k] < |counts| ==> refs[k] > 0 && counts[ids[k]] == Finite(refs[k]))
    && (forall v :: v in refs ==> v in ids && ids[v] >= 7)
  }

  ghost predicate Valid(t: Table, refs: Refs) {
    Shape(t) && Inverse(t) && Counted(t, refs)
  }

  function Gain(t: Table, refs: Refs, v: Value): Refs {
    if Key(v) in t.ids && t.ids[Key(v)] < 7 then refs else refs + multiset{Key(v)}
  }

  function Lose(t: Table, refs: Refs, id: nat): Refs
    requires id < |t.values|
  {
    if id < 7 then refs else refs - multiset{Key(t.values[id])}
  }

  lemma PresetAt(id: nat)
    requires id < 7
    ensures PRESETS[id] == (match id case 0 => Num(NaN) case 1 => ZERO case 2 => Null case 3 => Bool(true)
                                     case 4 => Bool(false) case 5 => GLOBAL_THIS case _ => GO)
  {}

  lemma PresetHasId(id: nat)
    requires 1 <= id < 7
    ensures Key(PRESETS[id]) in InitialTable().ids && InitialTable().ids[Key(PRESETS[id])] == id
  {
    PresetAt(id);
  }

  lemma IdHasPreset(k: Value)
    requires k in InitialTable().ids
    ensures Tabled(k) && 1 <= InitialTable().ids[k] < 7 && Key(PRESETS[InitialTable().ids[k]]) == k
  {
    PresetAt(InitialTable().ids[k]);
  }

  lemma InitialInverse()
    ensures Inverse(InitialTable())
  {
    forall id: nat | 1 <= id < 7
      ensures Key(PRESETS[id]) in InitialTable().ids && InitialTable().ids[Key(PRESETS[id])] == id
    {
      PresetHasId(id);
    }
    forall k | k in InitialTable().ids
      ensures Tabled(k) && 1 <= InitialTable().ids[k] < 7 && Key(PRESETS[InitialTable().ids[k]]) == k
    {
      IdHasPreset(k);
    }
  }

  lemma InitialValid()
    ensures Valid(InitialTable(), multiset{})
  {
    InitialInverse();
    assert PRESETS[..7] == PRESETS;
    assert forall k :: k in InitialTable().ids ==> InitialTable().ids[k] < 7;
  }

  /** Counting one reference more to k, whose id is at or above 7. */
  lemma CountOneMore(ids: map<Value, nat>, counts: seq<Count>, refs: Refs, k: Value)
    requires CountedOf(ids, counts, refs) && k in ids && 7 <= ids[k] < |counts|
    requires forall j :: j in ids && ids[j] == ids[k] ==> j == k
    ensures CountedOf(ids, counts[ids[k] := Up(counts[ids[k]])], refs + multiset{k})
  {
  }

  lemma AddOld(t: Table, refs: Refs, v: Value)
    requires Valid(t, refs) && Tabled(v) && Key(v) in t.ids
    ensures Valid(Add(t, v), Gain(t, refs, v))
  {
    var id := t.ids[Key(v)];
    assert Live(t, id);
    if id < 7 {
      assert t.counts[id := Up(t.counts[id])] == t.counts;
    } else {
      CountOneMore(t.ids, t.counts, refs, Key(v));
      assert Shape(Add(t, v));
    }
  }

  /** k gets an id that is not in use: the new entry keeps ids and values inverse to each other. */
  lemma NewIsInverse(values: seq<Value>, ids: map<Value, nat>, pool: seq<nat>, v: Value, id: nat, pool': seq<nat>)
    requires InverseOf(values, ids, pool) && Tabled(v) && Key(v) !in ids
    requires 7 <= id <= |values| && (id < |values| ==> id in pool)
    requires forall i: nat :: i in pool' <==> i in pool && i != id
    ensures InverseOf(if id < |values| then values[id := v] else values + [v], ids[Key(v) := id], pool')
  {
    var values' := if id < |values| then values[id := v] else values + [v];
    var ids' := ids[Key(v) := id];
    forall k | k in ids'
      ensures 1 <= ids'[k] && Used(values', pool', ids'[k]) && Key(values'[ids'[k]]) == k && Tabled(k)
    {
      assert k != Key(v) ==> Used(values, pool, ids[k]);
    }
    forall i: nat | 1 <= i < |values'| && Used(values', pool', i)
      ensures Key(values'[i]) in ids' && ids'[Key(values'[i])] == i
    {
      assert i != id ==> Used(values, pool, i);
    }
  }

  lemma NewIsCounted(ids: map<Value, nat>, counts: seq<Count>, refs: Refs, k: Value, id: nat)
    requires CountedOf(ids, counts, refs) && k !in ids && 7 <= id <= |counts|
    requires forall j :: j in ids ==> ids[j] != id && ids[j] < |counts|
    ensures CountedOf(ids[k := id], if id < |counts| then counts[id := Finite(1)] else counts + [Finite(1)],
                      refs + multiset{k})
  {
    assert k !in refs;
  }

  lemma AddFresh(t: Table, refs: Refs, v: Value)
    requires Valid(t, refs) && Tabled(v) && Key(v) !in t.ids && t.pool == []
    ensures Valid(Add(t, v), Gain(t, refs, v))
  {
    var id := |t.values|;
    forall j | j in t.ids ensures t.ids[j] < id {
      assert Live(t, t.ids[j]);
    }
    assert id !in t.pool;
    NewIsInverse(t.values, t.ids, t.pool, v, id, t.pool);
    NewIsCounted(t.ids, t.counts, refs, Key(v), id);
    assert Shape(Add(t, v)) by {
      assert (t.values + [v])[..7] == t.values[..7];
    }
  }

  /** Taking the last id off a duplicate-free pool takes exactly that id out of it. */
  lemma PopPool(pool: seq<nat>)
    requires pool != [] && Distinct(pool)
    ensures var id := pool[|pool| - 1]; var rest := pool[..|pool| - 1];
            id in pool && Distinct(rest) && forall i: nat :: i in rest <==> i in pool && i != id
  {
    var last := |pool| - 1;
    forall i: nat | i in pool && i != pool[last] ensures i in pool[..last] {
      var p :| 0 <= p < |pool| && pool[p] == i;
      assert pool[..last][p] == i;
    }
  }

  lemma ReusedShape(t: Table, refs: Refs, v: Value)
    requires Shape(t) && t.pool != []
    requires forall k :: k in t.ids ==> t.ids[k] < |t.values|
    requires Key(v) !in t.ids
    ensures Shape(Add(t, v))
  {
    PopPool(t.pool);
    var id := t.pool[|t.pool| - 1];
    assert t.values[id := v][..7] == t.values[..7];
  }

  lemma AddReused(t: Table, refs: Refs, v: Value)
    requires Valid(t, refs) && Tabled(v) && Key(v) !in t.ids && t.pool != []
    ensures Valid(Add(t, v), Gain(t, refs, v))
  {
    var id := t.pool[|t.pool| - 1];
    PopPool(t.pool);
    forall j | j in t.ids ensures t.ids[j] < |t.values| && t.ids[j] != id {
      assert Live(t, t.ids[j]);
    }
    ReusedShape(t, refs, v);
    NewIsInverse(t.values, t.ids, t.pool, v, id, t.pool[..|t.pool| - 1]);
    NewIsCounted(t.ids, t.counts, refs, Key(v), id);
  }

  lemma AddKeepsValid(t: Table, refs: Refs, v: Value)
    requires Valid(t, refs) && Tabled(v)
    ensures Valid(Add(t, v), Gain(t, refs, v))
    ensures Live(Add(t, v), IdFor(t, v)) && Key(Add(t, v).values[IdFor(t, v)]) == Key(v)
  {
    if Key(v) in t.ids {
      AddOld(t, refs, v);
    } else if t.pool == [] {
      AddFresh(t, refs, v);
    } else {
      AddReused(t, refs, v);
    }
    assert Add(t, v).ids[Key(v)] == IdFor(t, v);
  }

  lemma ReleaseKeepsValid(t: Table, refs: Refs, id: nat)
    requires Valid(t, refs) && Live(t, id)
    ensures Valid(Release(t, id), Lose(t, refs, id))
  {
    if id < 7 {
      assert Release(t, id) == t;
    } else {
      var key := Key(t.values[id]);
      assert t.ids[key] == id && t.counts[id] == Finite(refs[key]);
      if refs[key] == 1 {
        Frees(t, refs, id);
      } else {
        Shares(t, refs, id);
      }
    }
  }

  lemma Shares(t: Table, refs: Refs, id: nat)
    requires Valid(t, refs) && Live(t, id) && id >= 7 && refs[Key(t.values[id])] > 1
    ensures Valid(Release(t, id), Lose(t, refs, id))
  {
    var t' := Release(t, id);
    var key := Key(t.values[id]);
    assert t.ids[key] == id && t.counts[id] == Finite(refs[key]);
    assert t' == t.(counts := t.counts[id := Finite(refs[key] - 1)]);
    assert Shape(t');
    forall k | k in t'.ids && t'.ids[k] >= 7
      ensures Lose(t, refs, id)[k] > 0 && t'.counts[t'.ids[k]] == Finite(Lose(t, refs, id)[k])
    {
      assert Live(t, t.ids[k]) && t.counts[t.ids[k]] == Finite(refs[k]);
    }
  }

  /** Dropping k and putting its id in the pool leaves ids and values inverse to each other. */
  lemma FreedIsInverse(values: seq<Value>, ids: map<Value, nat>, pool: seq<nat>, k: Value)
    requires InverseOf(values, ids, pool) && k in ids
    ensures ids[k] < |values| && InverseOf(values[ids[k] := Null], ids - {k}, pool + [ids[k]])
  {
    var id := ids[k];
    assert Used(values, pool, id);
    var values', ids', pool' := values[id := Null], ids - {k}, pool + [id];
    forall j | j in ids'
      ensures 1 <= ids'[j] && Used(values', pool', ids'[j]) && Key(values'[ids'[j]]) == j && Tabled(j)
    {
      assert Used(values, pool, ids[j]) && ids[j] != id;
    }
    forall i: nat | 1 <= i < |values'| && Used(values', pool', i)
      ensures Key(values'[i]) in ids' && ids'[Key(values'[i])] == i
    {
      assert i in pool ==> i in pool';
      assert id in pool';
      assert Used(values, pool, i);
    }
  }

  lemma FreedIsCounted(ids: map<Value, nat>, counts: seq<Count>, refs: Refs, k: Value)
    requires CountedOf(ids, counts, refs) && k in ids && 7 <= ids[k] < |counts| && refs[k] == 1
    requires forall j :: j in ids && ids[j] == ids[k] ==> j == k
    ensures CountedOf(ids - {k}, counts[ids[k] := Finite(0)], refs - multiset{k})
  {
  }

  lemma Frees(t: Table, refs: Refs, id: nat)
    requires Valid(t, refs) && Live(t, id) && id >= 7 && refs[Key(t.values[id])] == 1
    ensures Valid(Release(t, id), Lose(t, refs, id))
  {
    var key := Key(t.values[id]);
    assert t.ids[key] == id && t.counts[id] == Finite(1);
    assert t.counts[id := Down(t.counts[id])] == t.counts[id := Finite(0)];
    FreedIsInverse(t.values, t.ids, t.pool, key);
    FreedIsCounted(t.ids, t.counts, refs, key);
    assert Shape(Release(t, id)) by {
      assert t.values[id := Null][..7] == t.values[..7];
    }
  }

  // ---------- whole runs ----------

  datatype Op = Store(v: Value) | Finalize(id: nat)

  /** What Go may do: store a boxed value, or finalize a reference it still holds. */
  predicate Allowed(t: Table, op: Op) {
    match op case Store(v) => Tabled(v) case Finalize(id) => Live(t, id)
  }

  /** peak is the largest number of different values, presets apart, that Go has held references to at once. */
  datatype World = World(t: Table, refs: Refs, peak: nat)

  /** The different values Go holds references to, presets apart. */
  function Holding(refs: Refs): set<Value> {
    set v | v in refs
  }

  /** The entries in use besides the presets. */
  function InUse(t: Table): int {
    |t.values| - 7 - |t.pool|
  }

  function Step(w: World, op: Op): World
    requires Valid(w.t, w.refs) && Allowed(w.t, op)
  {
    match op
    case Store(v) =>
      var refs := Gain(w.t, w.refs, v);
      World(Add(w.t, v), refs, if |Holding(refs)| > w.peak then |Holding(refs)| else w.peak)
    case Finalize(id) => World(Release(w.t, id), Lose(w.t, w.refs, id), w.peak)
  }

  /** The ids below n that are neither presets nor in the pool. */
  function Outside(n: nat, pool: seq<nat>): set<nat> {
    set id: nat | 7 <= id < n && id !in pool
  }

  lemma {:induction false} PoolAndOutside(n: nat, pool: seq<nat>)
    requires Distinct(pool) && forall i :: i in pool ==> 7 <= i < n
    ensures |Outside(n, pool)| + |pool| == if n > 7 then n - 7 else 0
    decreases n, |pool|
  {
    if pool != [] {
      var rest, last := pool[..|pool| - 1], pool[|pool| - 1];
      PopPool(pool);
      PoolAndOutside(n, rest);
      assert Outside(n, rest) == Outside(n, pool) + {last};
    } else if n > 7 {
      PoolAndOutside(n - 1, []);
      assert Outside(n, []) == Outside(n - 1, []) + {n - 1};
    } else {
      assert Outside(n, []) == {};
    }
  }

  /** Different ids of a set stand for different values of another, and every value has its id. */
  lemma {:induction false} OneToOne(ids: set<nat>, held: set<Value>, at: map<nat, Value>)
    requires ids == at.Keys && held == at.Values
    requires forall i, j :: i in ids && j in ids && at[i] == at[j] ==> i == j
    ensures |ids| == |held|
    decreases ids
  {
    if ids != {} {
      var id :| id in ids;
      var rest := at - {id};
      assert rest.Values == held - {at[id]} by {
        forall v | v in held - {at[id]} ensures v in rest.Values {
          var i :| i in ids && at[i] == v;
          assert rest[i] == v;
        }
      }
      OneToOne(ids - {id}, held - {at[id]}, rest);
    } else {
      assert at == map[];
    }
  }

  /** The entries in use are as many as the different values Go holds. */
  lemma InUseIsHolding(t: Table, refs: Refs)
    requires Valid(t, refs)
    ensures InUse(t) == |Holding(refs)|
  {
    PoolAndOutside(|t.values|, t.pool);
    var used := Outside(|t.values|, t.pool);
    var at := map id | id in used :: Key(t.values[id]);
    forall id | id in used
      ensures Key(t.values[id]) in t.ids && t.ids[Key(t.values[id])] == id && at[id] in refs {
      assert Live(t, id);
    }
    forall v | v in Holding(refs) ensures v in at.Values {
      assert v in t.ids && Live(t, t.ids[v]);
      assert at[t.ids[v]] == v;
    }
    assert at.Values == Holding(refs);
    OneToOne(used, Holding(refs), at);
  }

  /** The table is as long as the presets plus the most values ever held at once. */
  ghost predicate Tight(w: World) {
    Valid(w.t, w.refs) && |w.t.values| == 7 + w.peak && |Holding(w.refs)| <= w.peak
  }

  lemma StepKeepsTight(w: World, op: Op)
    requires Tight(w) && Allowed(w.t, op)
    ensures Tight(Step(w, op))
  {
    StepKeepsValid(w, op);
    InUseIsHolding(w.t, w.refs);
    InUseIsHolding(Step(w, op).t, Step(w, op).refs);
    if op.Store? {
      AddLength(w.t, op.v);
    }
  }

  lemma StepKeepsValid(w: World, op: Op)
    requires Valid(w.t, w.refs) && Allowed(w.t, op)
    ensures Valid(Step(w, op).t, Step(w, op).refs)
  {
    match op
    case Store(v) => AddKeepsValid(w.t, w.refs, v);
    case Finalize(id) => ReleaseKeepsValid(w.t, w.refs, id);
  }

  lemma AddLength(t: Table, v: Value)
    requires Shape(t) && (forall k :: k in t.ids ==> t.ids[k] < |t.values|)
    ensures var t' := Add(t, v);
            if Key(v) in t.ids then |t'.values| == |t.values| && InUse(t') == InUse(t)
            else InUse(t') == InUse(t) + 1 && |t'.values| == |t.values| + if t.pool == [] then 1 else 0
  {
    if Key(v) !in t.ids && t.pool != [] {
      assert t.pool[|t.pool| - 1] in t.pool;
      assert |Add(t, v).values| == |t.values|;
    }
  }

  function Run(w: World, ops: seq<Op>): Option<World>
    requires Tight(w)
    ensures Run(w, ops).Some? ==> Tight(Run(w, ops).value)
    decreases |ops|
  {
    if ops == [] then Some(w)
    else if !Allowed(w.t, ops[0]) then None
    else
      StepKeepsTight(w, ops[0]);
      Run(Step(w, ops[0]), ops[1..])
  }

  // ---------- boxing in the payload of a NaN ----------

  const NAN_HEAD: u32 := 0x7FF8_0000

  function TypeFlag(v: Value): (flag: nat)
    ensures flag < 8
  {
    match v
    case Object(_) => 1
    case Str(_) => 2
    case Symbol(_) => 3
    case Function(_) => 4
    case _ => 0
  }

  /** The high and low words storeValue writes for v, given the id v has when it is boxed. */
  function Box(v: Value, id: nat): (u32, u32) {
    if Tabled(v) then (NAN_HEAD + TypeFlag(v), id % 0x1_0000_0000)
    else if v.Undefined? then (0, 0)
    else if v.n.NaN? then (NAN_HEAD, 0)
    else (v.n.hi, v.n.lo)
  }

  /**
   The words, kind by kind: the NaN of a boxed value says whether Go holds an object, a string, a symbol or a
   function, and the low word its id.
   */
  lemma BoxSays(v: Value, id: nat)
    requires id < 0x1_0000_0000
    ensures var (hi, lo) := Box(v, id);
            match v
            case Undefined => hi == 0 && lo == 0
            case Num(NaN) => hi == 0x7FF8_0000 && lo == 0
            case Num(Bits(h, l)) =>
              if (h == 0 || h == 0x8000_0000) && l == 0 then hi == 0x7FF8_0000 && lo == id else hi == h && lo == l
            case Object(_) => hi == 0x7FF8_0001 && lo == id
            case Str(_) => hi == 0x7FF8_0002 && lo == id
            case Symbol(_) => hi == 0x7FF8_0003 && lo == id
            case Function(_) => hi == 0x7FF8_0004 && lo == id
            case _ => hi == 0x7FF8_0000 && lo == id
  {}

  lemma PresetId(t: Table, refs: Refs, id: nat)
    requires Valid(t, refs) && 1 <= id < 7
    ensures IdFor(t, PRESETS[id]) == id
  {
    assert t.values[..7][id] == PRESETS[id] && Live(t, id);
    PresetAt(id);
  }

  /** The ids Go knows without being told. */
  lemma PresetIds(t: Table, refs: Refs)
    requires Valid(t, refs)
    ensures IdFor(t, ZERO) == 1 && IdFor(t, Null) == 2 && IdFor(t, Bool(true)) == 3 && IdFor(t, Bool(false)) == 4
    ensures IdFor(t, GLOBAL_THIS) == 5 && IdFor(t, GO) == 6 && t.values[0] == Num(NaN)
  {
    forall id: nat | 1 <= id < 7 ensures IdFor(t, PRESETS[id]) == id {
      PresetId(t, refs, id);
    }
    assert PRESETS[1] == ZERO && PRESETS[2] == Null && PRESETS[3] == Bool(true) && PRESETS[4] == Bool(false);
    assert PRESETS[5] == GLOBAL_THIS && PRESETS[6] == GO;
    assert t.values[..7][0] == PRESETS[0];
  }

  /** The id freed last is the first to be used again. */
  lemma FreedIsReusedFirst(t: Table, refs: Refs, id: nat, v: Value)
    requires Valid(t, refs) && Live(t, id) && id >= 7 && refs[Key(t.values[id])] == 1
    requires Key(v) !in t.ids || Key(v) == Key(t.values[id])
    ensures IdFor(Release(t, id), v) == id
  {
    assert t.ids[Key(t.values[id])] == id && t.counts[id] == Finite(1);
  }

  /** What loadValue makes of two words. */
  function Unbox(values: seq<Value>, hi: u32, lo: u32): Value {
    if IsZeroBits(hi, lo) then Undefined
    else if !IsNanBits(hi, lo) then Num(Bits(hi, lo))
    else if lo < |values| then values[lo] else Undefined
  }

  function AfterStore(t: Table, v: Value): Table
    requires |t.counts| == |t.values|
    requires forall id :: id in t.pool ==> id < |t.values|
    requires forall k :: k in t.ids ==> t.ids[k] < |t.values|
  {
    if Tabled(v) then Add(t, v) else t
  }

  /** The value v reads back as: itself, except that negative zero reads as zero. */
  lemma StoreThenLoad(t: Table, refs: Refs, v: Value)
    requires Valid(t, refs) && |t.values| < 0x1_0000_0000
    ensures var words := Box(v, IdFor(t, v));
            var back := Unbox(AfterStore(t, v).values, words.0, words.1);
            if IsZero(v) then back == ZERO else back == v
  {
    if IsZero(v) {
      ZeroIsPreset(t, refs);
      BoxedReads(t.values, v, 1);
    } else if Tabled(v) {
      AddKeepsValid(t, refs, v);
      AddLength(t, v);
      BoxedReads(Add(t, v).values, v, IdFor(t, v));
    } else {
      assert t.values[..7][0] == t.values[0];
    }
  }

  lemma BoxedReads(values: seq<Value>, v: Value, id: nat)
    requires Tabled(v) && id < |values| <= 0x1_0000_0000
    ensures Unbox(values, Box(v, id).0, Box(v, id).1) == values[id]
  {
    assert id % 0x1_0000_0000 == id;
    assert IsNanBits(NAN_HEAD + TypeFlag(v), id);
  }

  lemma ZeroIsPreset(t: Table, refs: Refs)
    requires Valid(t, refs)
    ensures ZERO in t.ids && t.ids[ZERO] == 1 && |t.values| > 1 && t.values[1] == ZERO
  {
    assert Live(t, 1);
    assert t.values[..7][1] == ZERO;
  }

  // ---------- a reference stays good for as long as Go holds it ----------

  /** Go holds a reference to the tabled value k, or k is a preset. */
  ghost predicate Held(w: World, k: Value) {
    k in w.t.ids && (w.t.ids[k] < 7 || w.refs[k] > 0)
  }

  lemma StoreKeepsIds(t: Table, refs: Refs, v: Value, k: Value)
    requires Valid(t, refs) && Tabled(v) && k in t.ids
    ensures k in Add(t, v).ids && Add(t, v).ids[k] == t.ids[k] < |t.values| <= |Add(t, v).values|
    ensures Add(t, v).values[t.ids[k]] == t.values[t.ids[k]]
  {
    AddLength(t, v);
    assert Live(t, t.ids[k]);
    if Key(v) !in t.ids && t.pool != [] {
      assert t.pool[|t.pool| - 1] in t.pool;
    }
  }

  lemma ReleaseKeepsIds(t: Table, refs: Refs, id: nat, k: Value)
    requires Valid(t, refs) && Live(t, id) && k in t.ids
    requires t.ids[k] != id || id < 7 || refs[k] > 1
    ensures k in Release(t, id).ids && Release(t, id).ids[k] == t.ids[k] < |t.values| == |Release(t, id).values|
    ensures Release(t, id).values[t.ids[k]] == t.values[t.ids[k]]
  {
    assert Live(t, t.ids[k]);
    if id >= 7 {
      assert t.ids[Key(t.values[id])] == id;
    }
  }

  /** A value that keeps a reference keeps its id and its place in the table. */
  lemma StepKeepsIds(w: World, op: Op, k: Value)
    requires Tight(w) && Allowed(w.t, op) && Held(w, k)
    requires Held(Step(w, op), k)
    ensures Step(w, op).t.ids[k] == w.t.ids[k] < |w.t.values| <= |Step(w, op).t.values|
    ensures Step(w, op).t.values[w.t.ids[k]] == w.t.values[w.t.ids[k]]
  {
    match op
    case Store(v) => StoreKeepsIds(w.t, w.refs, v, k);
    case Finalize(id) =>
      if w.t.ids[k] == id && id >= 7 {
        assert Step(w, op).refs[k] == w.refs[k] - 1;
      }
      ReleaseKeepsIds(w.t, w.refs, id, k);
  }

  /** No operation in ops finalizes the last reference to k. */
  ghost predicate HeldThroughout(w: World, ops: seq<Op>, k: Value)
    requires Tight(w)
    decreases |ops|
  {
    && Held(w, k)
    && (ops != [] && Allowed(w.t, ops[0]) ==>
          (StepKeepsTight(w, ops[0]); HeldThroughout(Step(w, ops[0]), ops[1..], k)))
  }

  /** While Go holds a reference to k, whatever else is stored and finalized, its id still reads k. */
  lemma {:induction false} HeldReferenceReadsBack(w: World, ops: seq<Op>, k: Value)
    requires Tight(w) && Run(w, ops).Some? && HeldThroughout(w, ops, k)
    ensures var end := Run(w, ops).value;
            && k in end.t.ids && end.t.ids[k] == w.t.ids[k] < |w.t.values| <= |end.t.values|
            && end.t.values[w.t.ids[k]] == w.t.values[w.t.ids[k]]
    decreases |ops|
  {
    if ops != [] {
      StepKeepsTight(w, ops[0]);
      var next := Step(w, ops[0]);
      assert Held(next, k);
      StepKeepsIds(w, ops[0], k);
      HeldReferenceReadsBack(next, ops[1..], k);
    }
  }

  /** The world after Go is handed v. */
  function Stored(w: World, v: Value): (w': World)
    requires Tight(w) && Tabled(v)
    ensures Tight(w')
  {
    StepKeepsTight(w, Store(v));
    Step(w, Store(v))
  }

  /**
   The two words storeValue wrote for v go on reading as v, whatever is stored and finalized
   afterwards, until the last reference to v is finalized.
   */
  lemma BoxedReferenceReadsBack(w: World, v: Value, ops: seq<Op>)
    requires Tight(w) && Tabled(v) && !IsZero(v) && HeldThroughout(Stored(w, v), ops, v)
    requires Run(Stored(w, v), ops).Some? && |Run(Stored(w, v), ops).value.t.values| <= 0x1_0000_0000
    ensures var words := Box(v, IdFor(w.t, v));
            Unbox(Run(Stored(w, v), ops).value.t.values, words.0, words.1) == v
  {
    var stored := Stored(w, v);
    AddKeepsValid(w.t, w.refs, v);
    assert stored.t.ids[v] == IdFor(w.t, v);
    HeldReferenceReadsBack(stored, ops, v);
    BoxedReads(Run(stored, ops).value.t.values, v, IdFor(w.t, v));
  }

  /** After any run: presets in place, counts and references in agreement, table no longer than it ever had to be. */
  lemma AnyRun(ops: seq<Op>)
    ensures Tight(World(InitialTable(), multiset{}, 0))
    ensures Run(World(InitialTable(), multiset{}, 0), ops).Some? ==>
              var w := Run(World(InitialTable(), multiset{}, 0), ops).value;
              && w.t.values[..7] == PRESETS
              && Inverse(w.t) && Counted(w.t, w.refs) && Distinct(w.t.pool)
              && |w.t.values| == 7 + w.peak
  {
    InitialValid();
  }

  // ---------- the object ----------

  /** The tables and memory of a running Go instance. */
  class Go {
    var values: seq<Value>
    var goRefCounts: seq<Count>
    var ids: map<Value, nat>
    var idPool: seq<nat>
    const mem: array<byte>

    ghost function View(): Table
      reads this
    {
      Table(values, goRefCounts, ids, idPool)
    }

    constructor (mem: array<byte>)
      ensures View() == InitialTable() && this.mem == mem
      ensures Valid(View(), multiset{})
    {
      values := PRESETS;
      goRefCounts := seq(7, _ => Infinite);
      ids := map[ZERO := 1, Null := 2, Bool(true) := 3, Bool(false) := 4, GLOBAL_THIS := 5, GO := 6];
      idPool := [];
      this.mem := mem;
      new;
      InitialValid();
    }

    method SetWords(addr: nat, hi: u32, lo: u32)
      requires addr + 8 <= mem.Length
      modifies mem
      ensures WordAt(mem[..], addr) == lo && WordAt(mem[..], addr + 4) == hi
      ensures SameOutside(old(mem[..]), mem[..], addr, 8)
    {
      SetUint32(mem, addr + 4, hi);
      ghost var mid := mem[..];
      SetUint32(mem, addr, lo);
      assert WordAt(mem[..], addr + 4) == WordAt(mid, addr + 4);
    }

    /** The bookkeeping of storeValue: find or allocate the id of a boxed value and count the reference. */
    method Intern(v: Value) returns (id: nat)
      requires |goRefCounts| == |values|
      requires forall i :: i in idPool ==> i < |values|
      requires forall k :: k in ids ==> ids[k] < |values|
      modifies this`values, this`goRefCounts, this`ids, this`idPool
      ensures id == IdFor(old(View()), v)
      ensures View() == Add(old(View()), v)
    {
      if Key(v) in ids {
        id := ids[Key(v)];
      } else {
        if idPool != [] {
          id := idPool[|idPool| - 1];
          assert id in idPool;
          idPool := idPool[..|idPool| - 1];
        } else {
          id := |values|;
        }
        if id == |values| {
          values, goRefCounts := values + [v], goRefCounts + [Finite(0)];
        } else {
          values, goRefCounts := values[id := v], goRefCounts[id := Finite(0)];
        }
        ids := ids[Key(v) := id];
      }
      goRefCounts := goRefCounts[id := Up(goRefCounts[id])];
    }

    method StoreValue(addr: nat, v: Value, ghost refs: Refs)
      requires Valid(View(), refs) && addr + 8 <= mem.Length
      modifies this`values, this`goRefCounts, this`ids, this`idPool, mem
      ensures View() == AfterStore(old(View()), v)
      ensures WordAt(mem[..], addr + 4) ==
              match v
              case Undefined => 0
              case Num(NaN) => 0x7FF8_0000
              case Num(Bits(hi, lo)) => if (hi == 0 || hi == 0x8000_0000) && lo == 0 then 0x7FF8_0000 else hi
              case Object(_) => 0x7FF8_0001
              case Str(_) => 0x7FF8_0002
              case Symbol(_) => 0x7FF8_0003
              case Function(_) => 0x7FF8_0004
              case _ => 0x7FF8_0000
      ensures Tabled(v) ==> Key(v) in ids && WordAt(mem[..], addr) == ids[Key(v)] % 0x1_0000_0000
      ensures !Tabled(v) && v.Num? && v.n.Bits? ==> WordAt(mem[..], addr) == v.n.lo
      ensures Valid(View(), if Tabled(v) then Gain(old(View()), refs, v) else refs)
      ensures var words := Box(v, IdFor(old(View()), v));
              WordAt(mem[..], addr) == words.1 && WordAt(mem[..], addr + 4) == words.0
      ensures SameOutside(old(mem[..]), mem[..], addr, 8)
    {
      if v.Num? && !IsZero(v) {
        if v.n.NaN? {
          SetWords(addr, NAN_HEAD, 0);
          return;
        }
        SetWords(addr, v.n.hi, v.n.lo);
        return;
      }
      if v.Undefined? {
        SetWords(addr, 0, 0);
        return;
      }
      AddKeepsValid(View(), refs, v);
      var id := Intern(v);
      SetWords(addr, NAN_HEAD + TypeFlag(v), id % 0x1_0000_0000);
    }

    method LoadValue(addr: nat) returns (v: Value)
      requires addr + 8 <= mem.Length
      ensures v == Unbox(values, WordAt(mem[..], addr + 4), WordAt(mem[..], addr))
      ensures var hi, lo := WordAt(mem[..], addr + 4), WordAt(mem[..], addr);
              if IsZeroBits(hi, lo) then v == Undefined
              else if IsNanBits(hi, lo) then v == if lo < |values| then values[lo] else Undefined
              else v == Num(Bits(hi, lo))
    {
      var lo := GetUint32(mem, addr);
      var hi := GetUint32(mem, addr + 4);
      if IsZeroBits(hi, lo) {
        return Undefined;
      }
      if !IsNanBits(hi, lo) {
        return Num(Bits(hi, lo));
      }
      v := if lo < |values| then values[lo] else Undefined;
    }

    /** finalizeRef on a reference Go still holds; its low word is in memory at addr. */
    method FinalizeRef(addr: nat, ghost refs: Refs)
      requires Valid(View(), refs) && addr + 4 <= mem.Length && Live(View(), WordAt(mem[..], addr))
      modifies this`values, this`goRefCounts, this`ids, this`idPool
      ensures View() == Release(old(View()), WordAt(mem[..], addr))
      ensures Valid(View(), Lose(old(View()), refs, WordAt(mem[..], addr)))
    {
      ghost var before := View();
      var id := GetUint32(mem, addr);
      ReleaseKeepsValid(before, refs, id);
      goRefCounts := goRefCounts[id := Down(goRefCounts[id])];
      if goRefCounts[id] == Finite(0) {
        var v := values[id];
        values := values[id := Null];
        ids := ids - {Key(v)};
        idPool := idPool + [id];
      }
      assert View() == Release(before, id);
    }
  }
}
