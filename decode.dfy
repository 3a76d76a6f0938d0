/**
 * Schema extraction (decode.go): the `flag` tag grammar, flag-name derivation,
 * the supported-kind filter, default-literal coercion, and the walk over a
 * struct type that yields the ordered list of flag descriptors.
 */
module Decode {
  import opened Wrappers
  import opened GoText
  import opened StrConv
  import opened Reflect

  /** The `flg` record: typed default, flag name, description and the field's index path. */
  datatype Flg = Flg(defaultVal: FlagValue, name: string, dscr: string, idx: seq<nat>)

  /** Bit width of Go's `int` and `uint`: 32 on 386 and arm, 64 elsewhere. */
  type IntSize = n: nat | n == 32 || n == 64 witness 64

  /**
   * What the extraction takes from its environment: `intSize`, and the two
   * library grammars that are not reimplemented here, `strconv.ParseFloat(s, 64)`
   * (the IEEE-754 bits or the NumError reason) and `time.ParseDuration`
   * (nanoseconds or the error text).
   */
  datatype Platform = Platform(
    intSize: IntSize,
    parseFloat: string -> Result<bv64, NumErr>,
    parseDuration: string -> Result<int, string>)

  const ErrPrefix: string := "flagstruct: "

  /** `errw`: the library prefix put in front of a wrapped error's text. */
  function Errw(msg: string): (r: string)
    ensures Prefixed(r) && r[|ErrPrefix|..] == msg
  {
    ErrPrefix + msg
  }

  /** `msg` begins with the library prefix. */
  predicate Prefixed(msg: string) {
    |msg| >= |ErrPrefix| && msg[..|ErrPrefix|] == ErrPrefix
  }

  // ---------------------------------------------------------------------------
  // Tag grammar (parseFlagKey)

  /** The three parts of a `flag` tag. */
  datatype Key = Key(name: string, dv: string, dscr: string)

  /**
   * The separator `parseFlagKey` splits on: the first rune when the rune at
   * byte offset 1 is ':', which needs a first rune one byte wide; ',' otherwise.
   */
  function Separator(s: string): (r: char)
    ensures r == s[0] <== |s| >= 2 && Utf8Width(s[0]) == 1 && s[1] == ':'
    ensures r != ',' ==> |s| >= 2 && s[1] == ':' && r == s[0] && r as int < 0x80
  {
    if |s| >= 2 && Utf8Width(s[0]) == 1 && s[1] == ':' then s[0] else ','
  }

  /** A slice of a text without `c` is without `c`. */
  lemma SliceFree(s: string, r: string, c: char)
    requires c !in s
    requires exists a, b :: 0 <= a <= b <= |s| && r == s[a..b]
    ensures c !in r
  {
    var a, b :| 0 <= a <= b <= |s| && r == s[a..b];
    assert forall k :: 0 <= k < |r| ==> r[k] == s[a + k];
  }

  /** What `parseFlagKey(s)` returns. */
  function FlagKey(s: string): (r: Key)
    ensures Separator(s) !in r.name && Separator(s) !in r.dv
    ensures multiset(s)[Separator(s)] < 2 ==> r.dscr == ""
    ensures multiset(s)[Separator(s)] < 1 ==> r.dv == ""
  {
    var v := SplitN(s, Separator(s), 3);
    SplitN3(s, Separator(s));
    SliceFree(v[0], TrimSpace(v[0]), Separator(s));
    Key(TrimSpace(v[0]), if |v| > 1 then v[1] else "", if |v| > 2 then v[2] else "")
  }

  /** `FlagKey` with the separator already chosen: the parts `SplitN(s, sc, 3)` gives. */
  lemma FlagKeyBy(s: string, sc: char)
    requires sc == Separator(s)
    ensures var v := SplitN(s, sc, 3);
      FlagKey(s) == Key(TrimSpace(v[0]), if |v| > 1 then v[1] else "", if |v| > 2 then v[2] else "")
  {
  }

  /**
   * `parseFlagKey`: a range loop over the runes of `s` with their byte offsets
   * picks the separator, then `strings.SplitN(s, sep, 3)` cuts the tag. The
   * `<rune>:` prefix is not removed before the split.
   */
  method ParseFlagKey(s: string) returns (name: string, dv: string, dscr: string)
    ensures Key(name, dv, dscr) == FlagKey(s)
  {
    name, dv, dscr := "", "", "";
    var sc := ',';
    var sr: char := '\U{0}';
    var i: nat := 0;  // byte offset of the rune s[j]
    var j := 0;
    while j < |s|
      invariant 0 <= j <= |s|
      invariant sc == ','
      invariant j == 0 ==> i == 0
      invariant j == 1 ==> i == Utf8Width(s[0])
      invariant j >= 1 ==> sr == s[0]
      invariant j >= 2 ==> Utf8Width(s[0]) >= 2 && i >= 2
    {
      var r := s[j];
      if i == 0 {
        sr := r;
      }
      if i == 1 {
        if r == ':' {
          sc := sr;
        }
        break;
      }
      i := i + Utf8Width(r);
      j := j + 1;
    }
    assert sc == Separator(s);
    FlagKeyBy(s, sc);
    var v := SplitN(s, sc, 3);
    var ln := |v|;
    if ln > 0 {
      name := TrimSpace(v[0]);
    }
    if ln > 1 {
      dv := v[1];
    }
    if ln > 2 {
      dscr := v[2];
    }
  }

  /** The tag text before the first separator: the untrimmed name. */
  function RawName(s: string): string {
    match Index(s, Separator(s))
    case None => s
    case Some(m) => s[..m]
  }

  /**
   * `parseFlagKey` cuts at the first two separators only: the trimmed raw name,
   * then default and description verbatim; missing parts are "", and gluing the
   * parts back with the separator gives the tag.
   */
  lemma FlagKeySplit(s: string)
    ensures var sep, k, raw := Separator(s), FlagKey(s), RawName(s);
      && k.name == TrimSpace(raw)
      && sep !in raw && sep !in k.dv
      && (multiset(s)[sep] == 0 ==> raw == s && k.dv == "" && k.dscr == "")
      && (multiset(s)[sep] == 1 ==> s == raw + [sep] + k.dv && k.dscr == "")
      && (multiset(s)[sep] >= 2 ==> s == raw + [sep] + k.dv + [sep] + k.dscr)
  {
    SplitN3(s, Separator(s));
  }

  /**
   * A tag in the `<rune>:` form, with a one-byte rune, is split on that rune
   * (',' included), so the name part is always empty; unless the rune is ':'
   * itself, the default part then starts with the ':' of the prefix.
   */
  lemma CustomSeparatorEmptyName(s: string)
    requires |s| >= 2 && Utf8Width(s[0]) == 1 && s[1] == ':'
    ensures Separator(s) == s[0]
    ensures FlagKey(s).name == ""
    ensures s[0] != ':' ==> |FlagKey(s).dv| >= 1 && FlagKey(s).dv[0] == ':'
  {
    var sep, t := Separator(s), s[1..];
    assert Index(s, sep) == Some(0);
    var v := SplitN(s, sep, 3);
    assert v == [s[..0]] + SplitN(t, sep, 2);
    assert v[0] == [];
    SplitNHead(t, sep, 2);
    assert v[1] == SplitN(t, sep, 2)[0];
    assert t[0] == ':';
    if sep != ':' {
      match Index(t, sep)
      case None =>
      case Some(m) => assert m != 0;
    }
  }

  /** A first rune wider than one byte never switches the separator. */
  lemma MultiByteRuneKeepsComma(s: string)
    requires |s| >= 2 && s[0] as int >= 0x80 && s[1] == ':'
    ensures Separator(s) == ','
  {
  }

  // ---------------------------------------------------------------------------
  // Names and kinds

  /** `rewriteName`: every '_' becomes '-', then the name is lower-cased. */
  function RewriteName(nm: string): (r: string)
    ensures |r| == |nm|
    ensures '_' !in r
    ensures forall k :: 0 <= k < |r| ==> !('A' <= r[k] <= 'Z')
    ensures forall k :: 0 <= k < |nm| ==> r[k] == if nm[k] == '_' then '-' else LowerAscii(nm[k])
  {
    var r := ToLower(ReplaceAll(nm, '_', '-'));
    assert forall k :: 0 <= k < |r| ==> r[k] != '_';
    r
  }

  /** Rewriting a rewritten name changes nothing. */
  lemma RewriteNameIdempotent(nm: string)
    ensures RewriteName(RewriteName(nm)) == RewriteName(nm)
  {
    var r := RewriteName(nm);
    assert forall k :: 0 <= k < |r| ==> LowerAscii(r[k]) == r[k];
  }

  /** `validKind`: the kinds the switch lists. */
  predicate ValidKind(k: Kind) {
    k in {Bool, Int, Int64, Uint, Uint64, Float64, String}
  }

  /** The valid kinds are exactly the kinds of the values a flag can hold. */
  lemma ValidKindIsFlagKind(k: Kind)
    ensures ValidKind(k) <==> exists v :: TypeOf(v).kind == k
  {
    if ValidKind(k) {
      var v := match k
        case Bool => BoolV(false)
        case Int => IntV(0)
        case Int64 => Int64V(0)
        case Uint => UintV(0)
        case Uint64 => Uint64V(0)
        case Float64 => Float64V(0)
        case _ => StringV("");
      assert TypeOf(v).kind == k;
    }
  }

  // ---------------------------------------------------------------------------
  // Default-literal coercion

  /** The zero value of a flag type. */
  function Zero(t: Type): FlagValue
    requires IsFlagType(t)
  {
    if t.isDuration then DurationV(0)
    else match t.kind
      case Bool => BoolV(false)
      case Int => IntV(0)
      case Int64 => Int64V(0)
      case Uint => UintV(0)
      case Uint64 => Uint64V(0)
      case Float64 => Float64V(0)
      case _ => StringV("")
  }

  /** The text of a failed `strconv` call, or its value. */
  function NumText<T>(r: Result<T, NumError>): Result<T, string> {
    match r
    case Ok(x) => Ok(x)
    case Err(e) => Err(NumErrorText(e))
  }

  /**
   * The default-value switch of `parseType` for a field of type `t` with default
   * literal `dv`: the typed default, or the text of the library error. Duration
   * is decided by type identity before the kind switch is consulted. A coerced
   * default has exactly the field's type, so a Duration field and an int64 field
   * with the same literal get different defaults.
   */
  function Coerce(t: Type, dv: string, plat: Platform): (r: Result<FlagValue, string>)
    ensures WfType(t) && t.Prim? && ValidKind(t.kind) && r.Ok? ==> TypeOf(r.value) == t
  {
    var s := TrimSpace(dv);
    if t.Prim? && t.isDuration then
      if s == "" then Ok(DurationV(0))
      else match plat.parseDuration(s)
        case Ok(d) => Ok(DurationV(d))
        case Err(e) => Err(e)
    else CoerceKind(KindOf(t), dv, plat)
  }

  /** A literal for a bool field: blank is false, otherwise `strconv.ParseBool`. */
  function BoolLit(s: string): Result<bool, string> {
    if s == "" then Ok(false) else NumText(ParseBool(s))
  }

  /** A literal for a signed field of `bits` bits: blank is 0, otherwise `strconv.ParseInt(s, 10, bits)`. */
  function SignedLit(s: string, bits: nat): Result<int, string>
    requires bits >= 1
  {
    if s == "" then Ok(0) else NumText(ParseInt(s, bits))
  }

  /** A literal for an unsigned field of `bits` bits: blank is 0, otherwise `strconv.ParseUint(s, 10, bits)`. */
  function UnsignedLit(s: string, bits: nat): Result<nat, string> {
    if s == "" then Ok(0) else NumText(ParseUint(s, bits))
  }

  /** A literal for a float64 field: blank is +0, otherwise `strconv.ParseFloat(s, 64)`. */
  function FloatLit(s: string, plat: Platform): Result<bv64, string> {
    if s == "" then Ok(0)
    else match plat.parseFloat(s)
      case Ok(f) => Ok(f)
      case Err(e) => Err(NumErrorText(NumError("ParseFloat", s, e)))
  }

  /**
   * The kind switch proper. A string field, and a kind the switch does not
   * list, keep the literal as it is; every other literal is trimmed first.
   */
  function CoerceKind(k: Kind, dv: string, plat: Platform): (r: Result<FlagValue, string>)
    ensures ValidKind(k) && r.Ok? ==> TypeOf(r.value) == Prim(k, false)
  {
    if k == String || !ValidKind(k) then Ok(StringV(dv))
    else CoerceNumber(k, TrimSpace(dv), plat)
  }

  /** The cases of the kind switch that parse the trimmed literal `s`; a blank one gives the zero value. */
  function CoerceNumber(k: Kind, s: string, plat: Platform): (r: Result<FlagValue, string>)
    requires ValidKind(k) && k != String
    ensures r.Ok? ==> TypeOf(r.value) == Prim(k, false)
  {
    if k == Bool then (match BoolLit(s) case Ok(b) => Ok(BoolV(b)) case Err(e) => Err(e))
    else if k == Int then (match SignedLit(s, plat.intSize) case Ok(i) => Ok(IntV(i)) case Err(e) => Err(e))
    else if k == Int64 then (match SignedLit(s, 64) case Ok(i) => Ok(Int64V(i)) case Err(e) => Err(e))
    else if k == Uint then (match UnsignedLit(s, plat.intSize) case Ok(u) => Ok(UintV(u)) case Err(e) => Err(e))
    else if k == Uint64 then (match UnsignedLit(s, 64) case Ok(u) => Ok(Uint64V(u)) case Err(e) => Err(e))
    else (match FloatLit(s, plat) case Ok(f) => Ok(Float64V(f)) case Err(e) => Err(e))
  }

  /** A blank literal gives the zero value of the field's type; a string field keeps the literal verbatim. */
  lemma CoerceBlank(t: Type, dv: string, plat: Platform)
    requires WfType(t) && t.Prim? && ValidKind(t.kind)
    ensures t.kind == String ==> Coerce(t, dv, plat) == Ok(StringV(dv))
    ensures t.kind != String && TrimSpace(dv) == "" ==> Coerce(t, dv, plat) == Ok(Zero(t))
  {
  }

  /** The unsigned kinds accept a trimmed decimal numeral below 2^width and nothing else. */
  lemma CoerceUnsigned(t: Type, dv: string, plat: Platform)
    requires t.Prim? && !t.isDuration && t.kind in {Uint, Uint64}
    requires TrimSpace(dv) != ""
    ensures var s, bits := TrimSpace(dv), if t.kind == Uint then plat.intSize else 64;
      && (Coerce(t, dv, plat).Ok? <==> AllDigits(s) && DecValue(s) < Pow(2, bits))
      && (Coerce(t, dv, plat).Ok? ==>
            Coerce(t, dv, plat).value == if t.kind == Uint then UintV(DecValue(s)) else Uint64V(DecValue(s)))
  {
    var s, bits := TrimSpace(dv), if t.kind == Uint then plat.intSize else 64;
    assert Coerce(t, dv, plat) == CoerceNumber(t.kind, s, plat);
    ParseUintMeaning(s, bits);
    var u := UnsignedLit(s, bits);
    assert u.Ok? <==> AllDigits(s) && DecValue(s) < Pow(2, bits);
    assert u.Ok? ==> u.value == DecValue(s);
    if t.kind == Uint {
      assert CoerceNumber(Uint, s, plat) == match u case Ok(x) => Ok(UintV(x)) case Err(e) => Err(e);
    } else {
      assert CoerceNumber(Uint64, s, plat) == match u case Ok(x) => Ok(Uint64V(x)) case Err(e) => Err(e);
    }
  }

  /** The signed kinds accept a trimmed, optionally signed decimal numeral in range for their width and nothing else. */
  lemma CoerceSigned(t: Type, dv: string, plat: Platform)
    requires t.Prim? && !t.isDuration && t.kind in {Int, Int64}
    requires TrimSpace(dv) != ""
    ensures var s, bits := TrimSpace(dv), if t.kind == Int then plat.intSize else 64;
      var m := Magnitude(s);
      Coerce(t, dv, plat).Ok? <==>
        m != [] && AllDigits(m) &&
        if s[0] == '-' then DecValue(m) <= Pow(2, bits - 1) else DecValue(m) < Pow(2, bits - 1)
  {
    var s, bits := TrimSpace(dv), if t.kind == Int then plat.intSize else 64;
    CoerceSignedLit(t, dv, plat);
    SignedLitMeaning(s, bits);
  }

  /** A signed field's default is the trimmed literal read by `SignedLit` at the field's width. */
  lemma CoerceSignedLit(t: Type, dv: string, plat: Platform)
    requires t.Prim? && !t.isDuration && t.kind in {Int, Int64}
    ensures var s, bits := TrimSpace(dv), if t.kind == Int then plat.intSize else 64;
      Coerce(t, dv, plat) ==
        match SignedLit(s, bits)
        case Ok(n) => Ok(if t.kind == Int then IntV(n) else Int64V(n))
        case Err(e) => Err(e)
  {
    assert Coerce(t, dv, plat) == CoerceNumber(t.kind, TrimSpace(dv), plat);
  }

  /** A non-blank signed literal is read as `strconv.ParseInt` reads it. */
  lemma SignedLitMeaning(s: string, bits: nat)
    requires 2 <= bits && s != ""
    ensures var m := Magnitude(s);
      && (SignedLit(s, bits).Ok? <==>
            m != [] && AllDigits(m) &&
            if s[0] == '-' then DecValue(m) <= Pow(2, bits - 1) else DecValue(m) < Pow(2, bits - 1))
      && (SignedLit(s, bits).Ok? ==>
            SignedLit(s, bits).value == if s[0] == '-' then -(DecValue(m) as int) else DecValue(m))
  {
    ParseIntMeaning(s, bits);
  }

  /** Unsigned kinds reject a leading sign. */
  lemma CoerceUnsignedRejectsSign(t: Type, dv: string, plat: Platform)
    requires t.Prim? && !t.isDuration && t.kind in {Uint, Uint64}
    requires Signed(TrimSpace(dv))
    ensures Coerce(t, dv, plat).Err?
  {
    var s, bits := TrimSpace(dv), if t.kind == Uint then plat.intSize else 64;
    assert Coerce(t, dv, plat) == CoerceNumber(t.kind, s, plat);
    ParseUintMeaning(s, bits);
    assert UnsignedLit(s, bits).Err?;
  }

  /** Bool accepts a blank literal or one of the `strconv.ParseBool` spellings. */
  lemma CoerceBool(t: Type, dv: string, plat: Platform)
    requires t == Prim(Bool, false)
    ensures Coerce(t, dv, plat).Ok? <==> TrimSpace(dv) == "" || TrimSpace(dv) in TrueSpellings() + FalseSpellings()
    ensures Coerce(t, dv, plat) == Ok(BoolV(true)) <==> TrimSpace(dv) in TrueSpellings()
  {
  }

  // ---------------------------------------------------------------------------
  // The walk over a struct type (parseType)

  /** A result that first yields `pre`: the flags found so far followed by those of `r`, or `r`'s error. */
  function Then(pre: seq<Flg>, r: Result<seq<Flg>, string>): Result<seq<Flg>, string> {
    match r
    case Ok(x) => Ok(pre + x)
    case Err(e) => Err(e)
  }

  /** The flags of a nested struct as seen from its parent: field index `i` put in front of each index path. */
  function PrefixAll(i: nat, sub: seq<Flg>): (r: seq<Flg>)
    ensures |r| == |sub|
    ensures forall k :: 0 <= k < |r| ==> r[k] == sub[k].(idx := [i] + sub[k].idx)
  {
    seq(|sub|, k requires 0 <= k < |sub| => sub[k].(idx := [i] + sub[k].idx))
  }

  /**
   * Prefixing keeps each descriptor's name, default and description, and
   * keeps the declaration order of the paths in both directions.
   */
  lemma PrefixAllOrder(i: nat, sub: seq<Flg>)
    ensures var r := PrefixAll(i, sub);
      && |r| == |sub|
      && (forall k :: 0 <= k < |r| ==>
            r[k].name == sub[k].name && r[k].defaultVal == sub[k].defaultVal && r[k].dscr == sub[k].dscr
            && |r[k].idx| >= 1 && r[k].idx[0] == i && r[k].idx[1..] == sub[k].idx)
      && (forall a, b :: 0 <= a < |r| && 0 <= b < |r| ==>
            (Precedes(r[a].idx, r[b].idx) <==> Precedes(sub[a].idx, sub[b].idx)))
  {
    var r := PrefixAll(i, sub);
    forall k | 0 <= k < |r| ensures r[k].idx[1..] == sub[k].idx {
      assert r[k].idx == [i] + sub[k].idx;
    }
    forall a, b | 0 <= a < |r| && 0 <= b < |r|
      ensures Precedes(r[a].idx, r[b].idx) <==> Precedes(sub[a].idx, sub[b].idx)
    {
      PrecedesCons(i, sub[a].idx, sub[b].idx);
    }
  }

  /** A field that is registered as a flag itself: exported, not a struct, of a valid kind, with a non-empty tag. */
  predicate Registrable(f: Field) {
    f.exported && !f.typ.StructT? && ValidKind(KindOf(f.typ)) && f.tag != ""
  }

  /**
   * The descriptor of registrable field `f` at index path `idx`: the tag's name,
   * or the rewritten field name when the tag gives none, the tag's description,
   * and the coerced default.
   */
  function Describe(f: Field, idx: seq<nat>, plat: Platform): (r: Result<Flg, string>)
    ensures r.Ok? <==> Coerce(f.typ, FlagKey(f.tag).dv, plat).Ok?
    ensures r.Ok? ==> r.value.idx == idx && r.value.dscr == FlagKey(f.tag).dscr
  {
    var k := FlagKey(f.tag);
    var name := if k.name == "" then RewriteName(f.name) else k.name;
    match Coerce(f.typ, k.dv, plat)
    case Ok(d) => Ok(Flg(d, name, k.dscr, idx))
    case Err(e) => Err(e)
  }

  /** How the walk treats a registrable field found at an index path. */
  type Describer = (Field, seq<nat>) -> Result<Flg, string>

  /** `parseType`'s treatment of a registrable field. */
  function FieldDescriber(plat: Platform): Describer {
    (f, idx) => Describe(f, idx, plat)
  }

  /** `r` with the descriptor's index path set to `idx`. */
  function Restamp(r: Result<Flg, string>, idx: seq<nat>): Result<Flg, string> {
    match r
    case Ok(g) => Ok(g.(idx := idx))
    case Err(e) => Err(e)
  }

  /** A describer that uses the index path only to record it in the descriptor. */
  ghost predicate Stamping(d: Describer) {
    forall f, idx :: d(f, idx) == Restamp(d(f, []), idx)
  }

  /** A field's descriptor depends on its index path only by recording it. */
  lemma DescriberStamps(plat: Platform)
    ensures Stamping(FieldDescriber(plat))
  {
  }

  /**
   * What `parseType` yields for the fields of struct type `t` from position `i`
   * on: unexported fields are skipped, struct fields are expanded in place with
   * their index prepended, registrable fields give one descriptor each; the
   * first error ends the walk, wrapped once at every level it passes.
   */
  function ExtractFrom(t: Type, i: nat, d: Describer): (r: Result<seq<Flg>, string>)
    requires t.StructT? && i <= |t.fields|
    ensures r.Err? ==> Prefixed(r.error)
    decreases t, |t.fields| - i
  {
    if i == |t.fields| then Ok([])
    else
      var f := t.fields[i];
      var here: Result<seq<Flg>, string> :=
        if !f.exported then Ok([])
        else if f.typ.StructT? then
          (match ExtractFrom(f.typ, 0, d)
           case Ok(sub) => Ok(PrefixAll(i, sub))
           case Err(e) => Err(Errw(e)))
        else if Registrable(f) then
          (match d(f, [i])
           case Ok(g) => Ok([g])
           case Err(e) => Err(Errw(e)))
        else Ok([]);
      match here
      case Err(e) => Err(e)
      case Ok(a) => Then(a, ExtractFrom(t, i + 1, d))
  }

  /** What `parseType(t)` returns. */
  function Extract(t: Type, plat: Platform): (r: Result<seq<Flg>, string>)
    requires t.StructT?
    ensures r.Err? ==> Prefixed(r.error)
  {
    ExtractFrom(t, 0, FieldDescriber(plat))
  }

  lemma ThenEmpty(r: Result<seq<Flg>, string>)
    ensures Then([], r) == r
  {
    if r.Ok? {
      assert [] + r.value == r.value;
    }
  }

  lemma ThenThen(a: seq<Flg>, b: seq<Flg>, r: Result<seq<Flg>, string>)
    ensures Then(a, Then(b, r)) == Then(a + b, r)
  {
    if r.Ok? {
      assert a + (b + r.value) == a + b + r.value;
    }
  }

  /** One field of the walk: what it contributes, then the rest of the walk. */
  lemma ExtractStep(t: Type, i: nat, d: Describer)
    requires t.StructT? && i < |t.fields|
    ensures var f, rest := t.fields[i], ExtractFrom(t, i + 1, d);
      && (!f.exported || (!f.typ.StructT? && !Registrable(f)) ==> ExtractFrom(t, i, d) == rest)
      && (f.exported && f.typ.StructT? ==>
            ExtractFrom(t, i, d) ==
              match ExtractFrom(f.typ, 0, d)
              case Ok(sub) => Then(PrefixAll(i, sub), rest)
              case Err(e) => Err(Errw(e)))
      && (Registrable(f) ==>
            ExtractFrom(t, i, d) ==
              match d(f, [i])
              case Ok(g) => Then([g], rest)
              case Err(e) => Err(Errw(e)))
  {
    ThenEmpty(ExtractFrom(t, i + 1, d));
  }

  /** The copy loop of `parseType`: `sub`'s flags appended to `flags`, each with `i` put in front of its index path. */
  method AppendPrefixed(flags: seq<Flg>, i: nat, sub: seq<Flg>) returns (r: seq<Flg>)
    ensures r == flags + PrefixAll(i, sub)
  {
    r := flags;
    var j := 0;
    while j < |sub|
      invariant 0 <= j <= |sub|
      invariant r == flags + PrefixAll(i, sub[..j])
    {
      var s := sub[j];
      r := r + [Flg(s.defaultVal, s.name, s.dscr, [i] + s.idx)];
      j := j + 1;
    }
    assert sub[..j] == sub;
  }

  /** The body of `parseType` for a registrable field: parse the tag, name the flag, coerce the default. */
  method DescribeField(f: Field, idx: seq<nat>, plat: Platform) returns (r: Result<Flg, string>)
    ensures r == Describe(f, idx, plat)
  {
    var name, dv, dscr := ParseFlagKey(f.tag);
    if name == "" {
      name := RewriteName(f.name);
    }
    var d := Coerce(f.typ, dv, plat);
    if d.Err? {
      return Err(d.error);
    }
    return Ok(Flg(d.value, name, dscr, idx));
  }

  /**
   * `parseType`: a loop over the fields that appends to `flags`, recursing into
   * struct fields and copying their flags with the field index prepended.
   */
  method ParseType(t: Type, plat: Platform) returns (r: Result<seq<Flg>, string>)
    requires t.StructT?
    ensures r == Extract(t, plat)
    decreases t
  {
    ghost var d := FieldDescriber(plat);
    var flags: seq<Flg> := [];
    var i := 0;
    ThenEmpty(ExtractFrom(t, 0, d));
    while i < |t.fields|
      invariant 0 <= i <= |t.fields|
      invariant Extract(t, plat) == Then(flags, ExtractFrom(t, i, d))
    {
      var f := t.fields[i];
      ExtractStep(t, i, d);
      if !f.exported {
        i := i + 1;
        continue;
      }
      if f.typ.StructT? {
        var sub := ParseType(f.typ, plat);
        if sub.Err? {
          return Err(Errw(sub.error));
        }
        ThenThen(flags, PrefixAll(i, sub.value), ExtractFrom(t, i + 1, d));
        flags := AppendPrefixed(flags, i, sub.value);
      } else if ValidKind(KindOf(f.typ)) && f.tag != "" {
        var g := DescribeField(f, [i], plat);
        assert d(f, [i]) == g;
        if g.Err? {
          return Err(Errw(g.error));
        }
        ThenThen(flags, [g.value], ExtractFrom(t, i + 1, d));
        flags := flags + [g.value];
      }
      i := i + 1;
    }
    assert flags + [] == flags;
    return Ok(flags);
  }

  // ---------------------------------------------------------------------------
  // Which fields become flags, independently of the walk

  /** Field index `i` put in front of each path. */
  function PrefixPaths(i: nat, ps: seq<seq<nat>>): (r: seq<seq<nat>>)
    ensures |r| == |ps|
    ensures forall k :: 0 <= k < |r| ==> r[k] == [i] + ps[k]
  {
    seq(|ps|, k requires 0 <= k < |ps| => [i] + ps[k])
  }

  /** The index paths of the flags of struct type `t` from field `i` on, in the order the walk visits them. */
  function LeavesFrom(t: Type, i: nat): seq<seq<nat>>
    requires t.StructT? && i <= |t.fields|
    decreases t, |t.fields| - i
  {
    if i == |t.fields| then []
    else
      var f := t.fields[i];
      var here :=
        if !f.exported then []
        else if f.typ.StructT? then PrefixPaths(i, LeavesFrom(f.typ, 0))
        else if Registrable(f) then [[i]]
        else [];
      here + LeavesFrom(t, i + 1)
  }

  function Leaves(t: Type): seq<seq<nat>>
    requires t.StructT?
  {
    LeavesFrom(t, 0)
  }

  /**
   * `p` addresses a flag of `t`: it reaches a registrable field, and every
   * struct field it passes through on the way is exported.
   */
  predicate LeafPath(t: Type, p: seq<nat>) {
    && FieldAt(t, p).Some?
    && Registrable(FieldAt(t, p).value)
    && forall k :: 1 <= k < |p| ==> FieldAt(t, p[..k]).Some? && FieldAt(t, p[..k]).value.exported
  }

  /** A path into field `i` of `t`: a flag of `t` exactly when the field is exported and the rest is a flag of the field. */
  lemma LeafPathCons(t: Type, i: nat, q: seq<nat>)
    requires t.StructT? && i < |t.fields|
    ensures LeafPath(t, [i] + q) <==>
      t.fields[i].exported && if q == [] then Registrable(t.fields[i]) else LeafPath(t.fields[i].typ, q)
  {
    var f, p := t.fields[i], [i] + q;
    assert p[1..] == q;
    assert FieldAt(t, p[..1]) == Some(f) by { assert p[..1] == [i]; }
    if q != [] {
      assert FieldAt(t, p) == FieldAt(f.typ, q);
      forall k | 2 <= k < |p|
        ensures FieldAt(t, p[..k]) == FieldAt(f.typ, q[..k - 1])
      {
        assert p[..k][1..] == q[..k - 1];
      }
      if LeafPath(f.typ, q) && f.exported {
        forall k | 1 <= k < |p|
          ensures FieldAt(t, p[..k]).Some? && FieldAt(t, p[..k]).value.exported
        {
          if k >= 2 {
            assert FieldAt(t, p[..k]) == FieldAt(f.typ, q[..k - 1]);
          }
        }
      }
      if LeafPath(t, p) {
        forall k | 1 <= k < |q|
          ensures FieldAt(f.typ, q[..k]).Some? && FieldAt(f.typ, q[..k]).value.exported
        {
          assert FieldAt(t, p[..k + 1]) == FieldAt(f.typ, q[..k]);
        }
      }
    }
  }

  /** `p` in `PrefixPaths(i, ps)` exactly when it is `i` followed by a path of `ps`. */
  lemma PrefixPathsMember(i: nat, ps: seq<seq<nat>>, p: seq<nat>)
    ensures p in PrefixPaths(i, ps) <==> |p| >= 1 && p[0] == i && p[1..] in ps
  {
    if |p| >= 1 && p[0] == i && p[1..] in ps {
      var k :| 0 <= k < |ps| && ps[k] == p[1..];
      assert PrefixPaths(i, ps)[k] == p;
    }
  }

  /** A path of a primitive type reaches no field. */
  lemma NoFieldInPrim(t: Type, q: seq<nat>)
    requires !t.StructT?
    ensures FieldAt(t, q).None?
  {
  }

  /** The walk visits exactly the flag paths of `t`, from field `i` on. */
  lemma {:induction false} LeavesMember(t: Type, i: nat, p: seq<nat>)
    requires t.StructT? && i <= |t.fields|
    ensures p in LeavesFrom(t, i) <==> |p| >= 1 && i <= p[0] && LeafPath(t, p)
    decreases t, |t.fields| - i
  {
    if |p| >= 1 && LeafPath(t, p) {
      assert p[0] < |t.fields|;
    }
    if i < |t.fields| {
      var f := t.fields[i];
      var here: seq<seq<nat>> :=
        if !f.exported then []
        else if f.typ.StructT? then PrefixPaths(i, LeavesFrom(f.typ, 0))
        else if Registrable(f) then [[i]]
        else [];
      assert LeavesFrom(t, i) == here + LeavesFrom(t, i + 1);
      LeavesMember(t, i + 1, p);
      if |p| >= 1 && p[0] == i {
        var q := p[1..];
        assert p == [i] + q;
        assert p !in LeavesFrom(t, i + 1);
        LeafPathCons(t, i, q);
        if !f.exported {
        } else if f.typ.StructT? {
          PrefixPathsMember(i, LeavesFrom(f.typ, 0), p);
          LeavesMember(f.typ, 0, q);
          if LeafPath(f.typ, q) {
            assert q != [];
          }
        } else if q == [] {
          assert p == [i];
        } else {
          NoFieldInPrim(f.typ, q);
          assert p !in here;
        }
      } else if f.exported && f.typ.StructT? {
        PrefixPathsMember(i, LeavesFrom(f.typ, 0), p);
      }
    }
  }

  /** The flag paths of `t` are exactly the paths that `LeafPath` accepts. */
  lemma LeavesCharacterized(t: Type, p: seq<nat>)
    requires t.StructT?
    ensures p in Leaves(t) <==> LeafPath(t, p)
  {
    LeavesMember(t, 0, p);
    if LeafPath(t, p) {
      assert |p| >= 1;
    }
  }

  /** Each path comes strictly before the next: declaration order, depth first, no path twice. */
  predicate Ordered(ps: seq<seq<nat>>) {
    forall a, b :: 0 <= a < b < |ps| ==> Precedes(ps[a], ps[b])
  }

  /** The walk visits the flag paths in declaration order, depth first. */
  lemma {:induction false} LeavesOrdered(t: Type, i: nat)
    requires t.StructT? && i <= |t.fields|
    ensures Ordered(LeavesFrom(t, i))
    decreases t, |t.fields| - i
  {
    if i < |t.fields| {
      var f := t.fields[i];
      var here: seq<seq<nat>> :=
        if !f.exported then []
        else if f.typ.StructT? then PrefixPaths(i, LeavesFrom(f.typ, 0))
        else if Registrable(f) then [[i]]
        else [];
      var rest := LeavesFrom(t, i + 1);
      assert LeavesFrom(t, i) == here + rest;
      LeavesOrdered(t, i + 1);
      if f.exported && f.typ.StructT? {
        var sub := LeavesFrom(f.typ, 0);
        LeavesOrdered(f.typ, 0);
        forall a, b | 0 <= a < b < |here| ensures Precedes(here[a], here[b]) {
          PrecedesCons(i, sub[a], sub[b]);
        }
      }
      forall a | 0 <= a < |here| ensures |here[a]| >= 1 && here[a][0] == i {
      }
      forall b | 0 <= b < |rest| ensures |rest[b]| >= 1 && rest[b][0] > i {
        LeavesMember(t, i + 1, rest[b]);
      }
    }
  }

  /** `e` wrapped `n` times by `errw`. */
  function Wrapped(n: nat, e: string): (r: string)
    ensures n >= 1 ==> Prefixed(r)
  {
    if n == 0 then e else Errw(Wrapped(n - 1, e))
  }

  /**
   * Describing each path of `ps` in turn: the descriptors in order, or the
   * error of the first field that fails, wrapped once per struct level on its
   * path.
   */
  function DescribeAll(t: Type, ps: seq<seq<nat>>, d: Describer): Result<seq<Flg>, string>
    decreases |ps|
  {
    if ps == [] then Ok([])
    else match FieldAt(t, ps[0])
      case None => DescribeAll(t, ps[1..], d)
      case Some(f) =>
        match d(f, ps[0])
        case Err(e) => Err(Wrapped(|ps[0]|, e))
        case Ok(g) => Then([g], DescribeAll(t, ps[1..], d))
  }

  /** Every flag path reaches a field. */
  lemma LeavesReach(t: Type, i: nat)
    requires t.StructT? && i <= |t.fields|
    ensures forall k :: 0 <= k < |LeavesFrom(t, i)| ==>
      |LeavesFrom(t, i)[k]| >= 1 && FieldAt(t, LeavesFrom(t, i)[k]).Some?
  {
    forall k | 0 <= k < |LeavesFrom(t, i)|
      ensures |LeavesFrom(t, i)[k]| >= 1 && FieldAt(t, LeavesFrom(t, i)[k]).Some?
    {
      LeavesMember(t, i, LeavesFrom(t, i)[k]);
    }
  }

  /** Describing `a + b` describes `a`, then `b` unless `a` failed. */
  lemma {:induction false} DescribeAllAppend(t: Type, a: seq<seq<nat>>, b: seq<seq<nat>>, d: Describer)
    requires forall k :: 0 <= k < |a| ==> FieldAt(t, a[k]).Some?
    requires forall k :: 0 <= k < |b| ==> FieldAt(t, b[k]).Some?
    ensures forall k :: 0 <= k < |a + b| ==> FieldAt(t, (a + b)[k]).Some?
    ensures DescribeAll(t, a + b, d) ==
      match DescribeAll(t, a, d)
      case Err(e) => Err(e)
      case Ok(x) => Then(x, DescribeAll(t, b, d))
    decreases |a|
  {
    assert forall k :: 0 <= k < |a + b| ==> (a + b)[k] == if k < |a| then a[k] else b[k - |a|];
    if a == [] {
      assert a + b == b;
      ThenEmpty(DescribeAll(t, b, d));
    } else {
      assert (a + b)[1..] == a[1..] + b;
      DescribeAllAppend(t, a[1..], b, d);
      match d(FieldAt(t, a[0]).value, a[0])
      case Err(e) =>
      case Ok(g) =>
        if DescribeAll(t, a[1..], d).Ok? {
          ThenThen([g], DescribeAll(t, a[1..], d).value, DescribeAll(t, b, d));
        }
    }
  }

  /** A nested struct's paths, with its field index prepended, reach the same fields from the parent. */
  lemma PrefixPathsReach(t: Type, i: nat, ps: seq<seq<nat>>)
    requires t.StructT? && i < |t.fields|
    requires forall k :: 0 <= k < |ps| ==> |ps[k]| >= 1
    ensures forall k :: 0 <= k < |ps| ==> FieldAt(t, PrefixPaths(i, ps)[k]) == FieldAt(t.fields[i].typ, ps[k])
  {
    forall k | 0 <= k < |ps| ensures FieldAt(t, PrefixPaths(i, ps)[k]) == FieldAt(t.fields[i].typ, ps[k]) {
      assert ([i] + ps[k])[1..] == ps[k];
    }
  }

  /** Describing the paths of a nested struct from its parent: the same descriptors with `i` prepended, or the error wrapped once more. */
  lemma {:induction false} DescribeAllPrefix(t: Type, i: nat, ps: seq<seq<nat>>, d: Describer)
    requires t.StructT? && i < |t.fields|
    requires Stamping(d)
    requires forall k :: 0 <= k < |ps| ==> |ps[k]| >= 1 && FieldAt(t.fields[i].typ, ps[k]).Some?
    ensures forall k :: 0 <= k < |ps| ==> FieldAt(t, PrefixPaths(i, ps)[k]).Some?
    ensures DescribeAll(t, PrefixPaths(i, ps), d) ==
      match DescribeAll(t.fields[i].typ, ps, d)
      case Ok(sub) => Ok(PrefixAll(i, sub))
      case Err(e) => Err(Errw(e))
    decreases |ps|
  {
    var u := t.fields[i].typ;
    PrefixPathsReach(t, i, ps);
    if ps != [] {
      var pp := PrefixPaths(i, ps);
      assert pp[1..] == PrefixPaths(i, ps[1..]);
      DescribeAllPrefix(t, i, ps[1..], d);
      RestampPath(d, FieldAt(u, ps[0]).value, ps[0], pp[0]);
      DescribeAllPrefixStep(t, i, ps, d);
    }
  }

  /** The step of `DescribeAllPrefix`: its head field, then its tail by the induction hypothesis. */
  lemma DescribeAllPrefixStep(t: Type, i: nat, ps: seq<seq<nat>>, d: Describer)
    requires t.StructT? && i < |t.fields| && ps != []
    requires FieldAt(t.fields[i].typ, ps[0]).Some? && FieldAt(t, [i] + ps[0]) == FieldAt(t.fields[i].typ, ps[0])
    requires var f := FieldAt(t.fields[i].typ, ps[0]).value;
      && d(f, [i] + ps[0]) == Restamp(d(f, ps[0]), [i] + ps[0])
      && (d(f, ps[0]).Ok? ==> d(f, ps[0]).value.idx == ps[0])
    requires DescribeAll(t, PrefixPaths(i, ps[1..]), d) ==
      match DescribeAll(t.fields[i].typ, ps[1..], d)
      case Ok(sub) => Ok(PrefixAll(i, sub))
      case Err(e) => Err(Errw(e))
    ensures DescribeAll(t, PrefixPaths(i, ps), d) ==
      match DescribeAll(t.fields[i].typ, ps, d)
      case Ok(sub) => Ok(PrefixAll(i, sub))
      case Err(e) => Err(Errw(e))
  {
    var u, pp := t.fields[i].typ, PrefixPaths(i, ps);
    assert pp[1..] == PrefixPaths(i, ps[1..]);
    var f := FieldAt(u, ps[0]).value;
    assert pp[0] == [i] + ps[0];
    assert FieldAt(t, pp[0]).value == f;
    match d(f, ps[0])
    case Err(e) =>
      assert d(f, pp[0]) == Err(e);
      assert DescribeAll(t, pp, d) == Err(Wrapped(|pp[0]|, e));
      assert DescribeAll(u, ps, d) == Err(Wrapped(|ps[0]|, e));
      assert Wrapped(|pp[0]|, e) == Errw(Wrapped(|ps[0]|, e));
    case Ok(g) =>
      match DescribeAll(u, ps[1..], d)
      case Err(e) =>
      case Ok(sub) =>
        assert PrefixAll(i, [g] + sub) == [g.(idx := pp[0])] + PrefixAll(i, sub);
  }

  /** Under a stamping describer, describing a field at another path only changes the recorded path. */
  lemma RestampPath(d: Describer, f: Field, p: seq<nat>, q: seq<nat>)
    requires Stamping(d)
    ensures d(f, q) == Restamp(d(f, p), q)
    ensures d(f, p).Ok? ==> d(f, p).value.idx == p
  {
    assert d(f, p) == Restamp(d(f, []), p);
    assert d(f, q) == Restamp(d(f, []), q);
  }

  /**
   * The walk is equivalent to describing the flag paths of `t` in order: the
   * same descriptors, or the error of the first failing field wrapped once for
   * each struct level on its path.
   */
  lemma {:induction false} ExtractIsDescribeAll(t: Type, i: nat, d: Describer)
    requires t.StructT? && i <= |t.fields| && Stamping(d)
    ensures forall k :: 0 <= k < |LeavesFrom(t, i)| ==> FieldAt(t, LeavesFrom(t, i)[k]).Some?
    ensures ExtractFrom(t, i, d) == DescribeAll(t, LeavesFrom(t, i), d)
    decreases t, |t.fields| - i
  {
    LeavesReach(t, i);
    if i < |t.fields| {
      var f := t.fields[i];
      var here: seq<seq<nat>> :=
        if !f.exported then []
        else if f.typ.StructT? then PrefixPaths(i, LeavesFrom(f.typ, 0))
        else if Registrable(f) then [[i]]
        else [];
      var rest := LeavesFrom(t, i + 1);
      assert LeavesFrom(t, i) == here + rest;
      LeavesReach(t, i + 1);
      ExtractIsDescribeAll(t, i + 1, d);
      ExtractStep(t, i, d);
      if f.exported && f.typ.StructT? {
        LeavesReach(f.typ, 0);
        ExtractIsDescribeAll(f.typ, 0, d);
        DescribeAllPrefix(t, i, LeavesFrom(f.typ, 0), d);
        DescribeAllAppend(t, here, rest, d);
      } else if Registrable(f) {
        assert FieldAt(t, [i]) == Some(f);
        assert here[1..] == [];
        assert Wrapped(1, "") == Errw("");
        match d(f, [i])
        case Err(e) =>
          assert Wrapped(|[i]|, e) == Errw(e);
        case Ok(g) =>
          assert DescribeAll(t, here, d) == Ok([g] + []);
        DescribeAllAppend(t, here, rest, d);
      } else {
        assert here == [];
        assert here + rest == rest;
        ThenEmpty(DescribeAll(t, rest, d));
      }
    }
  }

  /**
   * Describing a list of paths succeeds exactly when every path does, with
   * their descriptors in order; otherwise the error is the first failing
   * path's, wrapped once per struct level on that path.
   */
  lemma {:induction false} DescribeAllMeaning(t: Type, ps: seq<seq<nat>>, d: Describer)
    requires forall k :: 0 <= k < |ps| ==> FieldAt(t, ps[k]).Some?
    ensures DescribeAll(t, ps, d).Ok? <==> forall k :: 0 <= k < |ps| ==> d(FieldAt(t, ps[k]).value, ps[k]).Ok?
    ensures DescribeAll(t, ps, d).Ok? ==>
      && |DescribeAll(t, ps, d).value| == |ps|
      && forall k :: 0 <= k < |ps| ==> d(FieldAt(t, ps[k]).value, ps[k]) == Ok(DescribeAll(t, ps, d).value[k])
    ensures DescribeAll(t, ps, d).Err? ==>
      exists k :: 0 <= k < |ps|
        && (forall j :: 0 <= j < k ==> d(FieldAt(t, ps[j]).value, ps[j]).Ok?)
        && d(FieldAt(t, ps[k]).value, ps[k]).Err?
        && DescribeAll(t, ps, d).error == Wrapped(|ps[k]|, d(FieldAt(t, ps[k]).value, ps[k]).error)
    decreases |ps|
  {
    if ps != [] {
      var tl := ps[1..];
      DescribeAllMeaning(t, tl, d);
      assert forall k :: 1 <= k < |ps| ==> ps[k] == tl[k - 1];
      var r0 := d(FieldAt(t, ps[0]).value, ps[0]);
      if r0.Ok? && DescribeAll(t, tl, d).Err? {
        var k :| 0 <= k < |tl|
          && (forall j :: 0 <= j < k ==> d(FieldAt(t, tl[j]).value, tl[j]).Ok?)
          && d(FieldAt(t, tl[k]).value, tl[k]).Err?
          && DescribeAll(t, tl, d).error == Wrapped(|tl[k]|, d(FieldAt(t, tl[k]).value, tl[k]).error);
        assert forall j :: 0 <= j < k + 1 ==> d(FieldAt(t, ps[j]).value, ps[j]).Ok?;
        assert DescribeAll(t, ps, d).error == Wrapped(|ps[k + 1]|, d(FieldAt(t, ps[k + 1]).value, ps[k + 1]).error);
      } else if r0.Err? {
        assert DescribeAll(t, ps, d).error == Wrapped(|ps[0]|, r0.error);
      }
    }
  }

  /**
   * A registrable field's descriptor: it exists exactly when its default
   * literal coerces, the default then has the field's own type, the
   * description is the tag's third part, and the name is the tag's unless the
   * tag gives none; with a custom separator it never does, so the name is
   * always the rewritten field name.
   */
  lemma DescribeMeaning(f: Field, idx: seq<nat>, plat: Platform)
    requires Registrable(f) && WfType(f.typ)
    ensures var k, r := FlagKey(f.tag), Describe(f, idx, plat);
      && (r.Ok? <==> Coerce(f.typ, k.dv, plat).Ok?)
      && (r.Err? ==> r.error == Coerce(f.typ, k.dv, plat).error)
      && (r.Ok? ==>
            && Coerce(f.typ, k.dv, plat) == Ok(r.value.defaultVal)
            && TypeOf(r.value.defaultVal) == f.typ
            && r.value.dscr == k.dscr
            && r.value.idx == idx
            && r.value.name == (if k.name == "" then RewriteName(f.name) else k.name))
      && (r.Ok? && Separator(f.tag) != ',' ==> r.value.name == RewriteName(f.name))
  {
    if Separator(f.tag) != ',' {
      CustomSeparatorEmptyName(f.tag);
    }
  }

  /**
   * What `parseType(t)` returns, stated without the walk: on success one
   * descriptor per flag path of `t`, in declaration order, each the
   * descriptor of the field at its path and holding a default of that field's
   * type; it fails exactly when some flag's default does not coerce, and then
   * with a "flagstruct: " error.
   */
  lemma ExtractSchema(t: Type, plat: Platform)
    requires t.StructT? && WfType(t)
    ensures forall k :: 0 <= k < |Leaves(t)| ==> FieldAt(t, Leaves(t)[k]).Some? && LeafPath(t, Leaves(t)[k])
    ensures Extract(t, plat).Ok? <==>
      forall k :: 0 <= k < |Leaves(t)| ==> Describe(FieldAt(t, Leaves(t)[k]).value, Leaves(t)[k], plat).Ok?
    ensures Extract(t, plat).Ok? ==>
      var fl := Extract(t, plat).value;
      && |fl| == |Leaves(t)|
      && (forall k :: 0 <= k < |fl| ==>
            && fl[k].idx == Leaves(t)[k]
            && Describe(FieldAt(t, fl[k].idx).value, fl[k].idx, plat) == Ok(fl[k])
            && TypeOf(fl[k].defaultVal) == FieldAt(t, fl[k].idx).value.typ)
      && (forall a, b :: 0 <= a < b < |fl| ==> Precedes(fl[a].idx, fl[b].idx))
    ensures Extract(t, plat).Err? ==> Prefixed(Extract(t, plat).error)
  {
    var d, ls := FieldDescriber(plat), Leaves(t);
    DescriberStamps(plat);
    ExtractIsDescribeAll(t, 0, d);
    LeavesReach(t, 0);
    LeavesOrdered(t, 0);
    DescribeAllMeaning(t, ls, d);
    forall k | 0 <= k < |ls|
      ensures LeafPath(t, ls[k]) && WfType(FieldAt(t, ls[k]).value.typ)
    {
      LeavesMember(t, 0, ls[k]);
      WfFieldAt(t, ls[k]);
    }
    if Extract(t, plat).Ok? {
      var fl := Extract(t, plat).value;
      forall k | 0 <= k < |fl|
        ensures fl[k].idx == ls[k] && TypeOf(fl[k].defaultVal) == FieldAt(t, ls[k]).value.typ
      {
        DescribeMeaning(FieldAt(t, ls[k]).value, ls[k], plat);
      }
    }
  }

  // ---------------------------------------------------------------------------
  // The package example

  /** A tag with at least two separators, cut at the first two. */
  lemma FlagKeyAt(s: string, m1: nat, m2: nat)
    requires m1 < m2 < |s| && s[m1] == Separator(s) && s[m2] == Separator(s)
    requires Separator(s) !in s[..m1] && Separator(s) !in s[m1 + 1..m2]
    ensures FlagKey(s) == Key(TrimSpace(s[..m1]), s[m1 + 1..m2], s[m2 + 1..])
  {
    SplitN3At(s, Separator(s), m1, m2);
  }

  /**
   * Gluing a name, a default and a description together with the separator the
   * result selects, and parsing the tag, gives them back (the name trimmed),
   * provided neither the name nor the default contains the separator.
   */
  lemma FlagKeyCompose(raw: string, dv: string, dscr: string, sep: char)
    requires Separator(raw + [sep] + dv + [sep] + dscr) == sep
    requires sep !in raw && sep !in dv
    ensures FlagKey(raw + [sep] + dv + [sep] + dscr) == Key(TrimSpace(raw), dv, dscr)
  {
    var s := raw + [sep] + dv + [sep] + dscr;
    var m1, m2 := |raw|, |raw| + 1 + |dv|;
    assert s[..m1] == raw && s[m1 + 1..m2] == dv && s[m2 + 1..] == dscr;
    FlagKeyAt(s, m1, m2);
  }

  /**
   * The package example's tag `|:name|Johnson, Rick|your name`: the `|:`
   * prefix is not stripped, so the name part is empty and ":name" is the
   * default.
   */
  lemma ExampleNameTag(dv: string, dscr: string)
    requires dv == ":name" && dscr == "Johnson, Rick|your name"
    ensures FlagKey("" + ['|'] + dv + ['|'] + dscr) == Key("", dv, dscr)
  {
    var s := "" + ['|'] + dv + ['|'] + dscr;
    assert s[0] == '|' && s[1] == ':';
    assert '|' !in dv;
    FlagKeyCompose("", dv, dscr, '|');
  }

  /** The package example's nested tag `on,,activate?`: an empty default between two commas. */
  lemma ExampleOnTag(name: string, dscr: string)
    requires name == "on" && dscr == "activate?"
    ensures FlagKey(name + [','] + "" + [','] + dscr) == Key(name, "", dscr)
  {
    var s := name + [','] + "" + [','] + dscr;
    assert s[0] == 'o' && s[1] == 'n';
    assert ',' !in name;
    assert !IsSpace(name[0]) && !IsSpace(name[|name| - 1]);
    FlagKeyCompose(name, "", dscr, ',');
  }

  /**
   * The documentation's tag `|:name|a,b,c|description`: the `|:` prefix is not
   * stripped, so the name is empty, ":name" is the default and the rest,
   * commas and '|' included, is the description.
   */
  lemma DocSeparatorTag(tag: string, dv: string, dscr: string)
    requires tag == "|:name|a,b,c|description"
    requires dv == ":name" && dscr == "a,b,c|description"
    ensures FlagKey(tag) == Key("", dv, dscr)
  {
    assert tag == "" + ['|'] + dv + ['|'] + dscr;
    assert tag[0] == '|' && tag[1] == ':';
    assert '|' !in dv;
    FlagKeyCompose("", dv, dscr, '|');
  }

  /** The tag `::name:a,b,c:description`: ':' as its own custom separator leaves name and default empty. */
  lemma ColonSeparatorTag(dscr: string)
    requires dscr == "name:a,b,c:description"
    ensures FlagKey("" + [':'] + "" + [':'] + dscr) == Key("", "", dscr)
  {
    var s := "" + [':'] + "" + [':'] + dscr;
    assert s[0] == ':' && s[1] == ':';
    FlagKeyCompose("", "", dscr, ':');
  }

  /**
   * The tag `⊕:name⊕a,b,c⊕description`: the first rune is three bytes wide, so
   * ',' stays the separator and the tag is cut at its commas.
   */
  lemma MultiByteRuneTag(raw: string, dscr: string)
    requires raw == "\U{2295}:name\U{2295}a" && dscr == "c\U{2295}description"
    ensures FlagKey(raw + [','] + "b" + [','] + dscr) == Key(raw, "b", dscr)
  {
    var s := raw + [','] + "b" + [','] + dscr;
    assert s[0] == '\U{2295}';
    assert Separator(s) == ',';
    assert ',' !in raw && ',' !in "b";
    assert !IsSpace(raw[0]) && !IsSpace(raw[|raw| - 1]);
    assert TrimSpace(raw) == raw;
    FlagKeyCompose(raw, "b", dscr, ',');
  }

  /**
   * The package example's `Name` field: its tag names no flag, so the flag is
   * called after the field, and ":name" (not "Johnson, Rick") is its default.
   */
  lemma ExampleNameFlag(f: Field, dv: string, dscr: string, plat: Platform)
    requires dv == ":name" && dscr == "Johnson, Rick|your name"
    requires f == Field("Name", true, "|:name|Johnson, Rick|your name", Prim(String, false))
    ensures Describe(f, [0], plat) == Ok(Flg(StringV(dv), "name", dscr, [0]))
  {
    ExampleNameKey(f.tag, dv, dscr);
    NameRewrite(f.name);
    CoerceBlank(f.typ, dv, plat);
  }

  /** The package example's `Sub.On` field: flag "on", a blank default read as false, and its description. */
  lemma ExampleOnFlag(f: Field, name: string, dscr: string, idx: seq<nat>, plat: Platform)
    requires name == "on" && dscr == "activate?"
    requires f == Field("On", true, name + [','] + "" + [','] + dscr, Prim(Bool, false))
    ensures Describe(f, idx, plat) == Ok(Flg(BoolV(false), name, dscr, idx))
  {
    ExampleOnTag(name, dscr);
    CoerceBlank(f.typ, "", plat);
  }

  /** The `Name` tag is the default ":name" and the description between two '|'. */
  lemma ExampleNameTagText(dv: string, dscr: string)
    requires dv == ":name" && dscr == "Johnson, Rick|your name"
    ensures "|:name|Johnson, Rick|your name" == "" + ['|'] + dv + ['|'] + dscr
  {
  }

  /** How `parseFlagKey` cuts the `Name` tag. */
  lemma ExampleNameKey(tag: string, dv: string, dscr: string)
    requires tag == "|:name|Johnson, Rick|your name"
    requires dv == ":name" && dscr == "Johnson, Rick|your name"
    ensures FlagKey(tag) == Key("", dv, dscr)
  {
    ExampleNameTagText(dv, dscr);
    ExampleNameTag(dv, dscr);
  }

  lemma NameRewrite(nm: string)
    requires nm == "Name"
    ensures RewriteName(nm) == "name"
  {
  }

  /** The package example's second field name. */
  lemma ExampleRewrite(nm: string)
    requires nm == "Simple_flag"
    ensures RewriteName(nm) == "simple-flag"
  {
  }

  /**
   * Only `Name` and `Sub.On` become flags: `Simple_flag`'s empty tag counts as
   * no tag, and `Skip` has none.
   */
  lemma ExampleLeaves(t: Type)
    requires IsExample(t)
    ensures Leaves(t) == [[0], [2, 0]]
  {
    var u := t.fields[2].typ;
    assert LeavesFrom(u, 2) == [];
    assert LeavesFrom(u, 1) == [];
    assert LeavesFrom(u, 0) == [[0]];
    assert PrefixPaths(2, [[0]])[0] == [2] + [0] == [2, 0];
    assert LeavesFrom(t, 3) == [];
    assert LeavesFrom(t, 2) == [[2, 0]];
    assert LeavesFrom(t, 1) == [[2, 0]];
  }

  /**
   * The struct of the package example: `Name string` with the `|:name|...` tag,
   * `Simple_flag bool` with an empty tag, and `Sub` holding `On bool` with the
   * `on,,activate?` tag and an untagged `Skip string`.
   */
  predicate IsExample(t: Type) {
    && t.StructT? && |t.fields| == 3
    && t.fields[0] == Field("Name", true, "|:name|Johnson, Rick|your name", Prim(String, false))
    && t.fields[1] == Field("Simple_flag", true, "", Prim(Bool, false))
    && t.fields[2].name == "Sub" && t.fields[2].exported && t.fields[2].tag == ""
    && IsExampleSub(t.fields[2].typ)
  }

  /** The example's nested struct `Sub`: `On bool` with tag `on,,activate?`, then the untagged `Skip string`. */
  predicate IsExampleSub(u: Type) {
    && u.StructT? && |u.fields| == 2
    && u.fields[0] == Field("On", true, "on,,activate?", Prim(Bool, false))
    && u.fields[1] == Field("Skip", true, "", Prim(String, false))
  }

  /** The walk over the example's nested struct `Sub`: only `On` yields a descriptor. */
  lemma ExampleSubWalk(u: Type, d: Describer, g: Flg)
    requires IsExampleSub(u) && d(u.fields[0], [0]) == Ok(g)
    ensures ExtractFrom(u, 0, d) == Ok([g])
  {
    assert ExtractFrom(u, 2, d) == Ok([]);
    ExtractStep(u, 1, d);
    ExtractStep(u, 0, d);
    assert [g] + [] == [g];
  }

  /** The field `On` of the example's nested struct, as the walk describes it. */
  lemma ExampleOnDescribed(u: Type, plat: Platform)
    requires IsExampleSub(u)
    ensures FieldDescriber(plat)(u.fields[0], [0]) == Ok(Flg(BoolV(false), "on", "activate?", [0]))
  {
    assert u.fields[0].tag == "on" + [','] + "" + [','] + "activate?";
    ExampleOnFlag(u.fields[0], "on", "activate?", [0], plat);
  }

  /**
   * The walk over the example's struct: `Name` yields its descriptor,
   * `Simple_flag` none, and `Sub` the descriptor of `On` with 2 put in front of
   * its path.
   */
  lemma ExampleWalk(t: Type, d: Describer, gName: Flg, gOn: Flg)
    requires t.StructT? && |t.fields| == 3
    requires Registrable(t.fields[0]) && d(t.fields[0], [0]) == Ok(gName)
    requires t.fields[1] == Field("Simple_flag", true, "", Prim(Bool, false))
    requires t.fields[2].exported && IsExampleSub(t.fields[2].typ)
    requires d(t.fields[2].typ.fields[0], [0]) == Ok(gOn) && gOn.idx == [0]
    ensures ExtractFrom(t, 0, d) == Ok([gName, gOn.(idx := [2, 0])])
  {
    var on := gOn.(idx := [2, 0]);
    assert [2] + gOn.idx == [2, 0];
    ExampleSubWalk(t.fields[2].typ, d, gOn);
    assert PrefixAll(2, [gOn]) == [on];
    assert ExtractFrom(t, 3, d) == Ok([]);
    ExtractStep(t, 2, d);
    assert [on] + [] == [on];
    ExtractStep(t, 1, d);
    ExtractStep(t, 0, d);
    assert [gName] + [on] == [gName, on];
  }

  /**
   * `parseType` on the package example's struct: two flags, `name` at path [0]
   * with ":name" as its default, then `on` at path [2, 0] defaulting to false.
   */
  lemma ExampleExtract(t: Type, plat: Platform)
    requires IsExample(t)
    ensures Extract(t, plat) == Ok([
      Flg(StringV(":name"), "name", "Johnson, Rick|your name", [0]),
      Flg(BoolV(false), "on", "activate?", [2, 0])])
  {
    ExampleNameFlag(t.fields[0], ":name", "Johnson, Rick|your name", plat);
    ExampleOnDescribed(t.fields[2].typ, plat);
    var on := Flg(BoolV(false), "on", "activate?", [0]);
    ExampleWalk(t, FieldDescriber(plat), Flg(StringV(":name"), "name", "Johnson, Rick|your name", [0]), on);
  }
}
