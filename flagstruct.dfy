/**
 * The binder and populator (flagstruct.go): `Extend` checks that its argument
 * points to a struct, extracts the flag descriptors and registers one typed
 * slot per descriptor on a `flag.FlagSet`; `Parse` runs the flag engine unless
 * the set is already parsed and then writes every slot's current value into
 * the struct at the descriptor's index path.
 */
module FlagStruct {
  import opened Wrappers
  import opened Reflect
  import opened Decode

  // ---------------------------------------------------------------------------
  // The flag engine, as far as this library sees it

  /** What `flag.FlagSet` records for a defined flag: its usage text and its default. */
  datatype Registered = Registered(usage: string, defValue: FlagValue)

  /** An error of the engine's parse: `flag.ErrHelp`, or any other failure with its text. */
  datatype EngineError = ErrHelp | Failure(msg: string)

  /**
   * One run of the engine over an argument list: the flag assignments it
   * performs, in order, and the error it stops with, if any.
   */
  datatype EngineRun = EngineRun(assigns: seq<(string, FlagValue)>, failure: Option<EngineError>)

  /** The slot contents after the assignments `asg`, performed in order. */
  function Apply(vals: map<string, FlagValue>, asg: seq<(string, FlagValue)>): map<string, FlagValue>
    decreases |asg|
  {
    if asg == [] then vals else Apply(vals[asg[0].0 := asg[0].1], asg[1..])
  }

  /**
   * Assignments to existing slots with values of the slots' types keep the
   * slot names and types.
   */
  lemma {:induction false} ApplyKeeps(vals: map<string, FlagValue>, asg: seq<(string, FlagValue)>)
    requires forall k :: 0 <= k < |asg| ==> asg[k].0 in vals && TypeOf(asg[k].1) == TypeOf(vals[asg[k].0])
    ensures Apply(vals, asg).Keys == vals.Keys
    ensures forall n :: n in vals ==> TypeOf(Apply(vals, asg)[n]) == TypeOf(vals[n])
    decreases |asg|
  {
    if asg != [] {
      var next := vals[asg[0].0 := asg[0].1];
      assert forall k :: 1 <= k < |asg| ==> asg[1..][k - 1] == asg[k];
      ApplyKeeps(next, asg[1..]);
    }
  }

  /** A slot that no assignment names keeps its value. */
  lemma {:induction false} ApplyUnnamed(vals: map<string, FlagValue>, asg: seq<(string, FlagValue)>, n: string)
    requires forall k :: 0 <= k < |asg| ==> asg[k].0 != n
    ensures n in Apply(vals, asg) <==> n in vals
    ensures n in vals ==> Apply(vals, asg)[n] == vals[n]
    decreases |asg|
  {
    if asg != [] {
      assert forall k :: 1 <= k < |asg| ==> asg[1..][k - 1] == asg[k];
      ApplyUnnamed(vals[asg[0].0 := asg[0].1], asg[1..], n);
    }
  }

  /** A flag given several times holds the value of its last assignment. */
  lemma {:induction false} ApplyLastWins(vals: map<string, FlagValue>, asg: seq<(string, FlagValue)>, k: nat)
    requires k < |asg| && forall j :: k < j < |asg| ==> asg[j].0 != asg[k].0
    ensures asg[k].0 in Apply(vals, asg) && Apply(vals, asg)[asg[k].0] == asg[k].1
    decreases |asg|
  {
    var next := vals[asg[0].0 := asg[0].1];
    assert forall j :: 1 <= j < |asg| ==> asg[1..][j - 1] == asg[j];
    if k == 0 {
      ApplyUnnamed(next, asg[1..], asg[0].0);
    } else {
      ApplyLastWins(next, asg[1..], k - 1);
    }
  }

  /**
   * `flag.FlagSet`: whether it has been parsed, the flags defined on it, and
   * the current value of each flag's slot.
   */
  class FlagSet {
    const name: string
    var parsed: bool
    var formal: map<string, Registered>
    var values: map<string, FlagValue>

    /** Every defined flag has a slot, holding a value of its default's type. */
    ghost predicate Valid()
      reads this
    {
      && formal.Keys == values.Keys
      && forall n :: n in formal ==> TypeOf(values[n]) == TypeOf(formal[n].defValue)
    }

    /** `flag.NewFlagSet(name, 0)`. */
    constructor (name: string)
      ensures Valid()
      ensures this.name == name && !parsed && formal == map[] && values == map[]
    {
      this.name := name;
      parsed := false;
      formal := map[];
      values := map[];
    }

    /**
     * The typed definers `Bool`, `Duration`, `Float64`, `String`, `Int`,
     * `Int64`, `Uint` and `Uint64`: flag `n` with its usage and default, its
     * slot starting at the default. Defining a name twice panics in `flag`.
     */
    method Define(n: string, value: FlagValue, usage: string)
      requires Valid() && n !in formal
      modifies this
      ensures Valid()
      ensures formal == old(formal)[n := Registered(usage, value)]
      ensures values == old(values)[n := value]
      ensures parsed == old(parsed)
    {
      formal := formal[n := Registered(usage, value)];
      values := values[n := value];
    }

    /** Each assignment names a defined flag and gives a value of its type. */
    predicate Assignable(asg: seq<(string, FlagValue)>)
      reads this
    {
      forall k :: 0 <= k < |asg| ==> asg[k].0 in formal && TypeOf(asg[k].1) == TypeOf(formal[asg[k].0].defValue)
    }

    /** `FlagSet.Parse`: the set is marked parsed, the run's assignments are performed, its error is returned. */
    method Parse(run: EngineRun) returns (err: Option<EngineError>)
      requires Valid() && Assignable(run.assigns)
      modifies this
      ensures Valid()
      ensures parsed && formal == old(formal)
      ensures values == Apply(old(values), run.assigns)
      ensures err == run.failure
    {
      parsed := true;
      ApplyKeeps(values, run.assigns);
      values := Apply(values, run.assigns);
      err := run.failure;
    }
  }

  // ---------------------------------------------------------------------------
  // The target struct and the write-back

  /** The struct `v` points to: its type, and its value, which `Parse` updates in place. */
  class Target {
    const typ: Type
    var val: Value

    ghost predicate Valid()
      reads this
    {
      HasType(val, typ)
    }

    constructor (typ: Type, val: Value)
      requires HasType(val, typ)
      ensures Valid() && this.typ == typ && this.val == val
    {
      this.typ := typ;
      this.val := val;
    }
  }

  /** The argument `v` of `Extend`: a pointer to a target, or a value of another kind. */
  datatype Root = Pointer(target: Target) | NotPointer(kind: Kind)

  /** The names of the descriptors. */
  function Names(sig: seq<Flg>): set<string> {
    set k | 0 <= k < |sig| :: sig[k].name
  }

  /** No two descriptors share a name, and none is defined on the flag set already. */
  predicate FreshNames(formal: map<string, Registered>, sig: seq<Flg>) {
    && (forall a, b :: 0 <= a < b < |sig| ==> sig[a].name != sig[b].name)
    && (forall k :: 0 <= k < |sig| ==> sig[k].name !in formal)
  }

  /**
   * The descriptors fit struct type `t`: each index path reaches a field of
   * the default's type, and the paths come in declaration order, so no two
   * overlap.
   */
  predicate SigFits(t: Type, sig: seq<Flg>) {
    && (forall k :: 0 <= k < |sig| ==>
          FieldAt(t, sig[k].idx).Some? && FieldAt(t, sig[k].idx).value.typ == TypeOf(sig[k].defaultVal))
    && (forall a, b :: 0 <= a < b < |sig| ==> Precedes(sig[a].idx, sig[b].idx))
  }

  /** Every descriptor has a slot holding a value of its default's type. */
  predicate SlotsFit(sig: seq<Flg>, vals: map<string, FlagValue>) {
    forall k :: 0 <= k < |sig| ==> sig[k].name in vals && TypeOf(vals[sig[k].name]) == TypeOf(sig[k].defaultVal)
  }

  /**
   * `v` after the write-back loop of `Parse`: each descriptor's field set to
   * its slot's value, in order; a path that overlaps no descriptor's path
   * keeps what it held.
   */
  function WriteBack(v: Value, sig: seq<Flg>, vals: map<string, FlagValue>): (r: Value)
    requires forall k :: 0 <= k < |sig| ==> sig[k].name in vals
    ensures forall q :: (forall k :: 0 <= k < |sig| ==> Disjoint(q, sig[k].idx)) ==> GetAt(r, q) == GetAt(v, q)
    decreases |sig|
  {
    if sig == [] then v
    else
      var x := Scalar(vals[sig[0].name]);
      GetSetOthers(v, sig[0].idx, x);
      WriteBack(SetAt(v, sig[0].idx, x), sig[1..], vals)
  }

  /**
   * After the write-back every descriptor's field holds its slot's value, and
   * the struct is still well typed.
   */
  lemma {:induction false} WriteBackStores(v: Value, t: Type, sig: seq<Flg>, vals: map<string, FlagValue>)
    requires HasType(v, t) && SigFits(t, sig) && SlotsFit(sig, vals)
    ensures HasType(WriteBack(v, sig, vals), t)
    ensures forall k :: 0 <= k < |sig| ==> GetAt(WriteBack(v, sig, vals), sig[k].idx) == Some(Scalar(vals[sig[k].name]))
    decreases |sig|
  {
    if sig != [] {
      var p, x := sig[0].idx, Scalar(vals[sig[0].name]);
      var tl := sig[1..];
      TypedGet(v, t, p);
      TypedSet(v, t, p, x);
      var v1 := SetAt(v, p, x);
      assert forall k :: 1 <= k < |sig| ==> tl[k - 1] == sig[k];
      WriteBackStores(v1, t, tl, vals);
      forall k | 0 <= k < |tl| ensures Disjoint(p, tl[k].idx) {
        assert Precedes(sig[0].idx, sig[k + 1].idx);
      }
    }
  }

  /** Writing back over a value that already holds every slot's value changes nothing. */
  lemma {:induction false} WriteBackFixed(w: Value, sig: seq<Flg>, vals: map<string, FlagValue>)
    requires forall k :: 0 <= k < |sig| ==> sig[k].name in vals
    requires forall k :: 0 <= k < |sig| ==> GetAt(w, sig[k].idx) == Some(Scalar(vals[sig[k].name]))
    ensures WriteBack(w, sig, vals) == w
    decreases |sig|
  {
    if sig != [] {
      SetGetSame(w, sig[0].idx, Scalar(vals[sig[0].name]));
      assert forall k :: 1 <= k < |sig| ==> sig[1..][k - 1] == sig[k];
      WriteBackFixed(w, sig[1..], vals);
    }
  }

  /** A second write-back with the same slot values gives the same struct. */
  lemma WriteBackIdempotent(v: Value, t: Type, sig: seq<Flg>, vals: map<string, FlagValue>)
    requires HasType(v, t) && SigFits(t, sig) && SlotsFit(sig, vals)
    ensures WriteBack(WriteBack(v, sig, vals), sig, vals) == WriteBack(v, sig, vals)
  {
    WriteBackStores(v, t, sig, vals);
    WriteBackFixed(WriteBack(v, sig, vals), sig, vals);
  }

  /** The index paths of a successful extraction are the leaf paths, in order. */
  lemma ExtractPaths(t: Type, plat: Platform)
    requires t.StructT? && WfType(t) && Extract(t, plat).Ok?
    ensures |Extract(t, plat).value| == |Leaves(t)|
    ensures forall k :: 0 <= k < |Leaves(t)| ==> Extract(t, plat).value[k].idx == Leaves(t)[k]
  {
    ExtractSchema(t, plat);
  }

  /**
   * In the test's struct, whatever the slots hold, the write-back over the
   * descriptors at the leaf paths (those of a successful extraction, by
   * `ExtractPaths`) never touches `Sub.Skip`, the field without a tag.
   */
  lemma ExampleSkipUntouched(t: Type, sig: seq<Flg>, v: Value, vals: map<string, FlagValue>)
    requires IsExample(t)
    requires |sig| == |Leaves(t)| && forall k :: 0 <= k < |sig| ==> sig[k].idx == Leaves(t)[k]
    requires forall k :: 0 <= k < |sig| ==> sig[k].name in vals
    ensures GetAt(WriteBack(v, sig, vals), [2, 1]) == GetAt(v, [2, 1])
  {
    ExampleLeaves(t);
    SkipDisjoint(sig);
  }

  /** `Sub.Skip` (path [2, 1]) overlaps neither `Name` ([0]) nor `Sub.On` ([2, 0]). */
  lemma SkipDisjoint(sig: seq<Flg>)
    requires |sig| == 2 && sig[0].idx == [0] && sig[1].idx == [2, 0]
    ensures forall k :: 0 <= k < |sig| ==> Disjoint([2, 1], sig[k].idx)
  {
    assert Precedes([0], [1]) by { assert [0][1..] == [1][1..] == []; }
    assert Disjoint([2, 1], [2, 0]) by { assert [2, 1][1..] == [1] && [2, 0][1..] == [0]; }
  }

  // ---------------------------------------------------------------------------
  // The parser

  /** `Parser`: the flag set, the descriptors, the target struct and the name-to-slot table. */
  class Parser {
    const fs: FlagSet
    const sig: seq<Flg>
    const into: Target
    const tbl: map<string, Type>

    /**
     * The descriptors fit the target's type, each is defined on the flag set
     * with its description and default, and the table has one slot of the
     * default's type per descriptor name.
     */
    ghost predicate Valid()
      reads this, fs, into
    {
      && fs.Valid()
      && into.Valid()
      && SigFits(into.typ, sig)
      && (forall a, b :: 0 <= a < b < |sig| ==> sig[a].name != sig[b].name)
      && (forall k :: 0 <= k < |sig| ==>
            sig[k].name in fs.formal && fs.formal[sig[k].name] == Registered(sig[k].dscr, sig[k].defaultVal))
      && tbl.Keys == Names(sig)
      && (forall k :: 0 <= k < |sig| ==> tbl[sig[k].name] == TypeOf(sig[k].defaultVal))
    }

    constructor (fs: FlagSet, sig: seq<Flg>, into: Target, tbl: map<string, Type>)
      ensures this.fs == fs && this.sig == sig && this.into == into && this.tbl == tbl
    {
      this.fs := fs;
      this.sig := sig;
      this.into := into;
      this.tbl := tbl;
    }

    /** `Parsed`, as defined on the flag set. */
    function Parsed(): bool
      reads this, fs
    {
      fs.parsed
    }

    /**
     * `Parse`: the engine runs only if the set is not parsed yet, and its
     * error is returned as it is, with the struct untouched; otherwise every
     * descriptor's field is set to its slot's current value, whether or not
     * the flag was given.
     */
    method Parse(run: EngineRun) returns (err: Option<EngineError>)
      requires Valid() && fs.Assignable(run.assigns)
      modifies fs, into
      ensures Valid()
      ensures old(fs.parsed) ==> err.None? && fs.parsed && fs.formal == old(fs.formal) && fs.values == old(fs.values)
      ensures !old(fs.parsed) ==>
        && fs.parsed && fs.formal == old(fs.formal)
        && fs.values == Apply(old(fs.values), run.assigns)
        && err == run.failure
      ensures err.Some? ==> into.val == old(into.val)
      ensures err.None? ==> into.val == WriteBack(old(into.val), sig, fs.values)
      ensures err.None? ==> forall k :: 0 <= k < |sig| ==> GetAt(into.val, sig[k].idx) == Some(Scalar(fs.values[sig[k].name]))
    {
      if !Parsed() {
        err := fs.Parse(run);
        if err.Some? {
          return;
        }
      }
      err := None;
      assert SlotsFit(sig, fs.values);
      WriteBackStores(into.val, into.typ, sig, fs.values);
      Populate();
    }

    /** The write-back loop of `Parse`: each descriptor's field is set to its slot's value, in order. */
    method Populate()
      requires into.Valid() && SigFits(into.typ, sig) && SlotsFit(sig, fs.values)
      modifies into
      ensures into.Valid()
      ensures into.val == WriteBack(old(into.val), sig, fs.values)
    {
      var i := 0;
      while i < |sig|
        invariant 0 <= i <= |sig|
        invariant into.Valid()
        invariant WriteBack(into.val, sig[i..], fs.values) == WriteBack(old(into.val), sig, fs.values)
      {
        var f := sig[i];
        TypedGet(into.val, into.typ, f.idx);
        TypedSet(into.val, into.typ, f.idx, Scalar(fs.values[f.name]));
        assert sig[i..][1..] == sig[i + 1..];
        into.val := SetAt(into.val, f.idx, Scalar(fs.values[f.name]));
        i := i + 1;
      }
    }
  }

  /** The error text of `errf(spec, k)`. */
  function Errf(spec: string, k: Kind): (r: string)
    ensures Prefixed(r) && r[|ErrPrefix|..] == spec + KindName(k)
  {
    ErrPrefix + spec + KindName(k)
  }

  /**
   * Parsing with no flag given: the slots still hold the defaults `Extend`
   * defined them with (whatever the flag set held before under other names),
   * so every descriptor's field receives its declared default.
   */
  lemma {:induction false} WriteBackDefaults(v: Value, t: Type, sig: seq<Flg>, others: map<string, FlagValue>)
    requires HasType(v, t) && SigFits(t, sig)
    requires forall a, b :: 0 <= a < b < |sig| ==> sig[a].name != sig[b].name
    ensures forall k :: 0 <= k < |sig| ==> sig[k].name in Collect(sig, DefaultOf)
    ensures var w := WriteBack(v, sig, others + Collect(sig, DefaultOf));
      && HasType(w, t)
      && forall k :: 0 <= k < |sig| ==> GetAt(w, sig[k].idx) == Some(Scalar(sig[k].defaultVal))
  {
    var vals := others + Collect(sig, DefaultOf);
    CollectMeaning(sig, DefaultOf);
    assert forall k :: 0 <= k < |sig| ==> vals[sig[k].name] == sig[k].defaultVal;
    WriteBackStores(v, t, sig, vals);
  }

  /** A successful extraction fits the struct type it was extracted from. */
  lemma SchemaFits(t: Type, plat: Platform)
    requires t.StructT? && WfType(t)
    ensures Extract(t, plat).Ok? ==> SigFits(t, Extract(t, plat).value)
  {
    ExtractSchema(t, plat);
  }

  /** The entry `flag` records for a descriptor. */
  function RegOf(g: Flg): Registered {
    Registered(g.dscr, g.defaultVal)
  }

  /** The initial slot value of a descriptor: its default. */
  function DefaultOf(g: Flg): FlagValue {
    g.defaultVal
  }

  /** The slot type of a descriptor. */
  function SlotOf(g: Flg): Type {
    TypeOf(g.defaultVal)
  }

  /** The map built by defining the descriptors in order, each name mapped to `f` of its descriptor. */
  function Collect<V>(sig: seq<Flg>, f: Flg -> V): map<string, V>
    decreases |sig|
  {
    if sig == [] then map[] else Collect(sig[..|sig| - 1], f)[sig[|sig| - 1].name := f(sig[|sig| - 1])]
  }

  /** The collected map has exactly the descriptor names as keys. */
  lemma {:induction false} CollectKeys<V>(sig: seq<Flg>, f: Flg -> V)
    ensures Collect(sig, f).Keys == Names(sig)
    decreases |sig|
  {
    if sig != [] {
      var init := sig[..|sig| - 1];
      CollectKeys(init, f);
      assert forall k :: 0 <= k < |init| ==> init[k] == sig[k];
      assert Names(sig) == Names(init) + {sig[|sig| - 1].name};
    }
  }

  /** Names being distinct, each descriptor's name maps to its own entry. */
  lemma {:induction false} CollectMeaning<V>(sig: seq<Flg>, f: Flg -> V)
    requires forall a, b :: 0 <= a < b < |sig| ==> sig[a].name != sig[b].name
    ensures Collect(sig, f).Keys == Names(sig)
    ensures forall k :: 0 <= k < |sig| ==> sig[k].name in Collect(sig, f) && Collect(sig, f)[sig[k].name] == f(sig[k])
    decreases |sig|
  {
    CollectKeys(sig, f);
    if sig != [] {
      var init := sig[..|sig| - 1];
      CollectMeaning(init, f);
      forall k | 0 <= k < |sig| ensures Collect(sig, f)[sig[k].name] == f(sig[k]) {
        if k < |init| {
          assert init[k] == sig[k];
        }
      }
    }
  }

  /** Defining the next descriptor extends the collected map of those before it. */
  lemma CollectStep<V>(sig: seq<Flg>, i: nat, f: Flg -> V)
    requires i < |sig|
    ensures Collect(sig[..i], f)[sig[i].name := f(sig[i])] == Collect(sig[..i + 1], f)
  {
    assert sig[..i + 1][..i] == sig[..i];
  }

  /** Defining the next descriptor on top of the entries `m` extends the union. */
  lemma CollectUnionStep<V>(m: map<string, V>, sig: seq<Flg>, i: nat, f: Flg -> V)
    requires i < |sig|
    ensures (m + Collect(sig[..i], f))[sig[i].name := f(sig[i])] == m + Collect(sig[..i + 1], f)
  {
    CollectStep(sig, i, f);
  }

  /** A name no descriptor has is not a key of the collected map. */
  lemma {:induction false} CollectFresh<V>(sig: seq<Flg>, f: Flg -> V, n: string)
    requires forall k :: 0 <= k < |sig| ==> sig[k].name != n
    ensures n !in Collect(sig, f)
    decreases |sig|
  {
    if sig != [] {
      CollectFresh(sig[..|sig| - 1], f, n);
    }
  }

  /**
   * The registration loop of `Extend`: each descriptor is defined on `fs`, in
   * order, with its description and default, and its slot type is recorded in
   * the table.
   */
  method Register(fs: FlagSet, sig: seq<Flg>) returns (tbl: map<string, Type>)
    requires fs.Valid() && FreshNames(fs.formal, sig)
    modifies fs
    ensures fs.Valid() && fs.parsed == old(fs.parsed)
    ensures fs.formal == old(fs.formal) + Collect(sig, RegOf)
    ensures fs.values == old(fs.values) + Collect(sig, DefaultOf)
    ensures tbl == Collect(sig, SlotOf)
  {
    tbl := map[];
    var i := 0;
    while i < |sig|
      invariant 0 <= i <= |sig|
      invariant fs.Valid() && fs.parsed == old(fs.parsed)
      invariant fs.formal == old(fs.formal) + Collect(sig[..i], RegOf)
      invariant fs.values == old(fs.values) + Collect(sig[..i], DefaultOf)
      invariant tbl == Collect(sig[..i], SlotOf)
    {
      var f := sig[i];
      CollectFresh(sig[..i], RegOf, f.name);
      CollectUnionStep(old(fs.formal), sig, i, RegOf);
      CollectUnionStep(old(fs.values), sig, i, DefaultOf);
      CollectStep(sig, i, SlotOf);
      fs.Define(f.name, f.defaultVal, f.dscr);
      tbl := tbl[f.name := TypeOf(f.defaultVal)];
      i := i + 1;
    }
    assert sig[..i] == sig;
  }

  /**
   * `Extend`: the root must point to a struct; the extraction's error is
   * returned unchanged; otherwise each descriptor is defined on `fs` with its
   * description and default, in order, and the parser is built.
   */
  method Extend(fs: FlagSet, v: Root, plat: Platform) returns (r: Result<Parser, string>)
    requires fs.Valid()
    requires v.NotPointer? ==> v.kind != Ptr && v.kind != Invalid
    requires v.Pointer? ==> v.target.Valid() && WfType(v.target.typ)
    requires v.Pointer? && v.target.typ.StructT? && Extract(v.target.typ, plat).Ok? ==>
      FreshNames(fs.formal, Extract(v.target.typ, plat).value)
    modifies fs
    ensures v.NotPointer? ==> r == Err(Errf("v must be pointer to struct, got ", v.kind))
    ensures v.Pointer? && !v.target.typ.StructT? ==>
      r == Err(Errf("v must be pointer to struct, got pointer to ", KindOf(v.target.typ)))
    ensures v.Pointer? && v.target.typ.StructT? && Extract(v.target.typ, plat).Err? ==>
      r == Err(Extract(v.target.typ, plat).error)
    ensures r.Err? ==> unchanged(fs)
    ensures r.Ok? <==> v.Pointer? && v.target.typ.StructT? && Extract(v.target.typ, plat).Ok?
    ensures r.Ok? ==>
      && fresh(r.value) && r.value.Valid()
      && r.value.fs == fs && r.value.into == v.target && r.value.sig == Extract(v.target.typ, plat).value
      && fs.parsed == old(fs.parsed)
      && fs.formal == old(fs.formal) + Collect(r.value.sig, RegOf)
      && fs.values == old(fs.values) + Collect(r.value.sig, DefaultOf)
      && r.value.tbl == Collect(r.value.sig, SlotOf)
  {
    if v.NotPointer? {
      return Err(Errf("v must be pointer to struct, got ", v.kind));
    }
    var t := v.target.typ;
    if KindOf(t) != Struct {
      return Err(Errf("v must be pointer to struct, got pointer to ", KindOf(t)));
    }
    var res := ParseType(t, plat);
    if res.Err? {
      return Err(res.error);
    }
    var sig := res.value;
    SchemaFits(t, plat);
    var tbl := Register(fs, sig);
    CollectMeaning(sig, RegOf);
    CollectMeaning(sig, DefaultOf);
    CollectMeaning(sig, SlotOf);
    var p := new Parser(fs, sig, v.target, tbl);
    return Ok(p);
  }

  /** Adding entries to an empty table gives just those entries. */
  lemma EmptyUnion<V>(m: map<string, V>)
    ensures map[] + m == m
  {
  }

  /** `New`: a parser over a fresh flag set named `name`. */
  method New(name: string, v: Root, plat: Platform) returns (r: Result<Parser, string>)
    requires v.NotPointer? ==> v.kind != Ptr && v.kind != Invalid
    requires v.Pointer? ==> v.target.Valid() && WfType(v.target.typ)
    requires v.Pointer? && v.target.typ.StructT? && Extract(v.target.typ, plat).Ok? ==>
      FreshNames(map[], Extract(v.target.typ, plat).value)
    ensures v.NotPointer? ==> r == Err(Errf("v must be pointer to struct, got ", v.kind))
    ensures v.Pointer? && !v.target.typ.StructT? ==>
      r == Err(Errf("v must be pointer to struct, got pointer to ", KindOf(v.target.typ)))
    ensures v.Pointer? && v.target.typ.StructT? && Extract(v.target.typ, plat).Err? ==>
      r == Err(Extract(v.target.typ, plat).error)
    ensures r.Ok? <==> v.Pointer? && v.target.typ.StructT? && Extract(v.target.typ, plat).Ok?
    ensures r.Ok? ==>
      && fresh(r.value) && r.value.Valid() && fresh(r.value.fs)
      && !r.value.fs.parsed && r.value.fs.name == name
      && r.value.into == v.target && r.value.sig == Extract(v.target.typ, plat).value
      && r.value.fs.formal == Collect(r.value.sig, RegOf)
      && r.value.fs.values == Collect(r.value.sig, DefaultOf)
      && r.value.tbl == Collect(r.value.sig, SlotOf)
  {
    var fs := new FlagSet(name);
    r := Extend(fs, v, plat);
    if r.Ok? {
      var sig := r.value.sig;
      EmptyUnion(Collect(sig, RegOf));
      EmptyUnion(Collect(sig, DefaultOf));
    }
  }

  // ---------------------------------------------------------------------------
  // The package example, end to end

  /**
   * The package example's `Parse(["-on", "-name", "John", "foo"])`, over two
   * descriptors with distinct names at `Name` and `Sub.On` (`ExampleExtract`
   * names them `name` and `on`), whatever the slots held before, and any value
   * of the example's shape: the engine sets the second flag to true and then
   * the first to "John", after which `Name` is "John" and `Sub.On` is true,
   * while `Simple_flag` (never registered) and `Sub.Skip` keep what the caller
   * put there.
   */
  lemma ExampleParse(sig: seq<Flg>, v: Value, m: map<string, FlagValue>)
    requires |sig| == 2 && sig[0].idx == [0] && sig[1].idx == [2, 0]
    requires sig[0].name != sig[1].name
    requires v.StructV? && |v.fields| == 3 && v.fields[2].StructV? && |v.fields[2].fields| == 2
    ensures sig[0].name in Apply(m, [(sig[1].name, BoolV(true)), (sig[0].name, StringV("John"))])
    ensures sig[1].name in Apply(m, [(sig[1].name, BoolV(true)), (sig[0].name, StringV("John"))])
    ensures var w := WriteBack(v, sig, Apply(m, [(sig[1].name, BoolV(true)), (sig[0].name, StringV("John"))]));
      && GetAt(w, [0]) == Some(Scalar(StringV("John")))
      && GetAt(w, [2, 0]) == Some(Scalar(BoolV(true)))
      && GetAt(w, [1]) == GetAt(v, [1])
      && GetAt(w, [2, 1]) == GetAt(v, [2, 1])
  {
    var asg := [(sig[1].name, BoolV(true)), (sig[0].name, StringV("John"))];
    ExampleEngine(m, sig[0].name, sig[1].name, StringV("John"), BoolV(true));
    ExampleWriteBack(v, sig, Apply(m, asg));
  }

  /** Setting `b` and then `a`, two different flags, stores both values. */
  lemma ExampleEngine(m: map<string, FlagValue>, a: string, b: string, x: FlagValue, y: FlagValue)
    requires a != b
    ensures Apply(m, [(b, y), (a, x)]) == m[a := x][b := y]
  {
    var asg := [(b, y), (a, x)];
    assert asg[1..] == [(a, x)] && asg[1..][1..] == [];
    assert Apply(m, asg) == Apply(m[b := y], asg[1..]);
    assert Apply(m[b := y], asg[1..]) == m[b := y][a := x];
  }

  /** The write-back of two descriptors at `Name` ([0]) and `Sub.On` ([2, 0]) of a value shaped like the example's. */
  lemma ExampleWriteBack(v: Value, sig: seq<Flg>, vals: map<string, FlagValue>)
    requires v.StructV? && |v.fields| == 3 && v.fields[2].StructV? && |v.fields[2].fields| == 2
    requires |sig| == 2 && sig[0].idx == [0] && sig[1].idx == [2, 0]
    requires sig[0].name in vals && sig[1].name in vals
    ensures var w := WriteBack(v, sig, vals);
      && GetAt(w, [0]) == Some(Scalar(vals[sig[0].name]))
      && GetAt(w, [2, 0]) == Some(Scalar(vals[sig[1].name]))
      && GetAt(w, [1]) == GetAt(v, [1])
      && GetAt(w, [2, 1]) == GetAt(v, [2, 1])
  {
    var x, y := Scalar(vals[sig[0].name]), Scalar(vals[sig[1].name]);
    var v1 := SetAt(v, [0], x);
    var w := SetAt(v1, [2, 0], y);
    assert WriteBack(v, sig, vals) == w by {
      var tl := sig[1..];
      assert tl[0] == sig[1] && tl[1..] == [];
      assert WriteBack(v, sig, vals) == WriteBack(v1, tl, vals);
      assert WriteBack(v1, tl, vals) == WriteBack(w, tl[1..], vals);
    }
    assert GetAt(v, [0]).Some? by { assert [0][1..] == []; }
    assert GetAt(v1, [2, 0]).Some? by {
      assert [2, 0][1..] == [0] && [0][1..] == [];
    }
    assert Precedes([0], [2, 0]) && Precedes([0], [1]) && Precedes([0], [2, 1]);
    assert Precedes([1], [2, 0]) && Precedes([2, 0], [2, 1]) by {
      assert [2, 0][1..] == [0] && [2, 1][1..] == [1];
    }
    GetSetOther(v1, [0], [2, 0], y);
    GetSetOther(v, [1], [0], x);
    GetSetOther(v1, [1], [2, 0], y);
    GetSetOther(v, [2, 1], [0], x);
    GetSetOther(v1, [2, 1], [2, 0], y);
  }
}
