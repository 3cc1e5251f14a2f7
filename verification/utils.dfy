/** The record normaliser: numeric coercion (num), migration of the legacy
    column names, and the collapse of the sex field to a canonical form. */
module Utils {
  import opened Wrappers
  import opened Strings
  import opened Numbers
  import opened Values

  /** num(x): a string reads through parseFloat, a finite number stays as it
      is, and everything else (including a string with no leading decimal)
      becomes null. */
  function Num(x: Val): (r: Val)
    ensures r.Null? || r.Number?
    ensures r.Number? <==> (x.Number? || (x.Str? && ParseFloat(x.s).Some?))
    ensures x.Number? ==> r == x
    ensures x.Str? && r.Number? ==> ParseFloat(x.s) == Some(r.n)
  {
    match x
    case Str(s) => (match ParseFloat(s) case Some(n) => Number(n) case None => Null)
    case Number(_) => x
    case _ => Null
  }

  lemma NumIdempotent(x: Val)
    ensures Num(Num(x)) == Num(x)
  {
  }

  /** The values the pipeline's own inputs most often hold. */
  lemma NumExamples()
    ensures Num(Str("abc")) == Null && Num(Str("")) == Null
    ensures Num(Str("12.5kg")) == Number(12.5)
    ensures Num(Null) == Null && Num(Undef) == Null && Num(NaN) == Null
    ensures Num(Bool(true)) == Null && Num(Number(-3.0)) == Number(-3.0)
  {
    ParseFloatNaN();
    ParseFloatIgnoresSuffix();
  }

  // ---------------------------------------------------------------------------
  // Sex

  /** A sex value normalisation leaves alone: non-empty, trimmed, upper case,
      and exactly "F" or "M" when it starts with F or M. */
  predicate IsCanonicalSex(s: string) {
    && |s| > 0
    && IsTrimmed(s)
    && Upper(s) == s
    && (s[0] == 'F' ==> s == "F")
    && (s[0] == 'M' ==> s == "M")
  }

  lemma CanonicalLetters()
    ensures IsCanonicalSex("F") && IsCanonicalSex("M")
  {
    assert Upper("F") == "F" by { assert Upper("F")[0] == 'F'; }
    assert Upper("M") == "M" by { assert Upper("M")[0] == 'M'; }
  }

  /** The sex rule of normalizeRecord: null and undefined give null; anything
      else is stringified, trimmed and upper-cased, then collapsed to "F" or "M"
      by its first letter (F checked first), and null when nothing is left. */
  function NormalizeSex(v: Val): (r: Val)
    ensures r.Null? || (r.Str? && IsCanonicalSex(r.s))
    ensures r.Null? <==> (Nullish(v) || forall i :: 0 <= i < |ToStr(v)| ==> IsWhite(ToStr(v)[i]))
  {
    if Nullish(v) then Null else SexOfText(ToStr(v))
  }

  /** The sex rule on the text of a value that is not null or undefined. */
  function SexOfText(t: string): (r: Val)
    ensures r.Null? || (r.Str? && IsCanonicalSex(r.s))
    ensures r.Null? <==> forall i :: 0 <= i < |t| ==> IsWhite(t[i])
  {
    var s := Upper(Trim(t));
    UpperKeepsTrimmed(Trim(t));
    CanonicalLetters();
    if |s| > 0 && s[0] == 'F' then Str("F")
    else if |s| > 0 && s[0] == 'M' then Str("M")
    else if s == "" then Null
    else Str(s)
  }

  /** The values NormalizeSex leaves unchanged are exactly null and the
      canonical strings. */
  lemma NormalizeSexFixpoints(v: Val)
    ensures NormalizeSex(v) == v <==> (v.Null? || (v.Str? && IsCanonicalSex(v.s)))
  {
    if v.Str? && IsCanonicalSex(v.s) {
      TrimOfTrimmed(v.s);
    }
  }

  lemma NormalizeSexIdempotent(v: Val)
    ensures NormalizeSex(NormalizeSex(v)) == NormalizeSex(v)
  {
    NormalizeSexFixpoints(NormalizeSex(v));
  }

  /** Only the first letter decides F and M, "F" checked first ("fm" gives "F"),
      whatever the case of the letters and the blanks around them. */
  lemma SexByFirstLetter(s: string)
    requires IsTrimmed(s) && |s| > 0
    ensures UpperChar(s[0]) == 'F' ==> NormalizeSex(Str(s)) == Str("F")
    ensures UpperChar(s[0]) == 'M' ==> NormalizeSex(Str(s)) == Str("M")
    ensures UpperChar(s[0]) != 'F' && UpperChar(s[0]) != 'M' ==> NormalizeSex(Str(s)) == Str(Upper(s))
  {
    TrimOfTrimmed(s);
  }

  /** Any value that is not null or undefined is turned into text and trimmed
      first; the first letter of what is left decides F and M, and anything
      else is kept upper-cased (" female" gives "F", the number 5 gives "5"). */
  lemma SexOfAnyValue(v: Val)
    requires !Nullish(v) && |Trim(ToStr(v))| > 0
    ensures var t := Trim(ToStr(v));
      && (UpperChar(t[0]) == 'F' ==> NormalizeSex(v) == Str("F"))
      && (UpperChar(t[0]) == 'M' ==> NormalizeSex(v) == Str("M"))
      && (UpperChar(t[0]) != 'F' && UpperChar(t[0]) != 'M' ==> NormalizeSex(v) == Str(Upper(t)))
  {
  }

  /** A padded word is trimmed before its first letter is read. */
  lemma PaddedFemale()
    ensures NormalizeSex(Str(" female")) == Str("F")
  {
    FemaleEnd();
    SpaceFemale();
    PaddedSexF("female");
  }

  lemma SpaceFemale()
    ensures [' '] + "female" == " female"
  {
  }

  /** A value whose trimmed text starts with f or F normalises to "F". */
  lemma SexOfLeadingF(v: Val, t: string)
    requires !Nullish(v) && Trim(ToStr(v)) == t && |t| > 0 && UpperChar(t[0]) == 'F'
    ensures NormalizeSex(v) == Str("F")
  {
    SexOfAnyValue(v);
  }

  /** One leading space before a word starting with f or F is trimmed off, and
      the word then normalises to "F". */
  lemma PaddedSexF(w: string)
    requires |w| > 0 && !IsWhite(w[0]) && TrimEnd(w) == w && UpperChar(w[0]) == 'F'
    ensures NormalizeSex(Str([' '] + w)) == Str("F")
  {
    PaddedTrimStart(w);
    assert Trim(ToStr(Str([' '] + w))) == w;
    SexOfLeadingF(Str([' '] + w), w);
  }

  /** One leading space is trimmed off a word that starts with a letter. */
  lemma PaddedTrimStart(w: string)
    requires |w| > 0 && !IsWhite(w[0])
    ensures TrimStart([' '] + w) == w
  {
    assert ([' '] + w)[1..] == w;
  }

  lemma FemaleEnd()
    ensures TrimEnd("female") == "female"
  {
  }

  /** A number is stringified before the rule applies: 5 gives "5". */
  lemma NumberFive()
    ensures NormalizeSex(Number(5.0)) == Str("5")
  {
    SexOfWholeNumber(5);
    assert NatToString(5) == "5";
  }

  /** A whole number is kept as its decimal text: digits are not white space,
      have no case, and start with neither f nor m. */
  lemma SexOfWholeNumber(n: nat)
    ensures NormalizeSex(Number(n as real)) == Str(NatToString(n))
  {
    WholeText(n);
    DigitsKept(NatToString(n));
    SexOfOtherText(Number(n as real), NatToString(n));
  }

  lemma WholeText(n: nat)
    ensures ToStr(Number(n as real)) == NatToString(n)
  {
    IntegralPrint(n);
  }

  /** Digits survive trimming and upper-casing, and are neither f nor m. */
  lemma DigitsKept(t: string)
    requires |t| > 0 && AllDigits(t)
    ensures Trim(t) == t && Upper(t) == t
    ensures UpperChar(t[0]) != 'F' && UpperChar(t[0]) != 'M'
  {
    assert IsDigit(t[0]) && IsDigit(t[|t| - 1]);
    TrimOfTrimmed(t);
    assert Upper(t) == t;
  }

  /** A value whose trimmed text starts with neither f nor m keeps that text,
      upper-cased. */
  lemma SexOfOtherText(v: Val, t: string)
    requires !Nullish(v) && Trim(ToStr(v)) == t && |t| > 0
    requires UpperChar(t[0]) != 'F' && UpperChar(t[0]) != 'M'
    ensures NormalizeSex(v) == Str(Upper(t))
  {
    SexOfAnyValue(v);
  }

  // ---------------------------------------------------------------------------
  // normalizeRecord

  const WeightKey := "weight_lbs"
  const AgeKey := "age_weeks"
  const HeightKey := "height_in"
  const SexKey := "sex"
  const NameKey := "name"
  const LegacyName := "Name"
  const LegacyWeight := "Weight (lbs)"
  const LegacyAge := "Age (Normalized Weeks)"
  const LegacyHeight := "Height (in)"

  lemma KeysDistinct()
    ensures WeightKey != AgeKey && WeightKey != HeightKey && WeightKey != SexKey && WeightKey != NameKey
    ensures AgeKey != HeightKey && AgeKey != SexKey && AgeKey != NameKey
    ensures HeightKey != SexKey && HeightKey != NameKey && SexKey != NameKey
    ensures LegacyName != NameKey && !IsCanonicalKey(LegacyName)
    ensures !IsCanonicalKey(LegacyWeight) && !IsCanonicalKey(LegacyAge) && !IsCanonicalKey(LegacyHeight)
  {
  }

  /** The keys normalizeRecord writes. */
  predicate IsCanonicalKey(k: string) {
    k == WeightKey || k == AgeKey || k == HeightKey || k == SexKey || k == NameKey
  }

  /** "Name" is copied to "name" when it is truthy and "name" is falsy. */
  predicate NameMigrates(r: Record) {
    Truthy(Get(r, LegacyName)) && !Truthy(Get(r, NameKey))
  }

  /** A legacy numeric column is read when it is set and the canonical one is not. */
  predicate AliasMigrates(r: Record, alias: string, key: string) {
    !Nullish(Get(r, alias)) && Nullish(Get(r, key))
  }

  /** The value a numeric field ends up with. */
  function NumericField(r: Record, alias: string, key: string): Val {
    if AliasMigrates(r, alias, key) then Num(Get(r, alias)) else Num(Get(r, key))
  }

  /** b is a with at most the key k written. */
  ghost predicate OneWrite(a: Record, b: Record, k: string) {
    forall j :: j != k ==> Get(b, j) == Get(a, j)
  }

  /** b keeps the keys of a, and b's key order starts with a's; a valid a
      gives a valid b. */
  ghost predicate KeysGrow(a: Record, b: Record) {
    && KeysExtend(a, b)
    && a.vals.Keys <= b.vals.Keys
    && (Valid(a) ==> Valid(b))
  }

  /** The keys of b start with the keys of a. */
  ghost predicate KeysExtend(a: Record, b: Record) {
    |a.keys| <= |b.keys| && b.keys[..|a.keys|] == a.keys
  }

  lemma ExtendKeepsKey(a: Record, b: Record, k: string)
    requires KeysExtend(a, b) && k in a.keys
    ensures k in b.keys
  {
    var i :| 0 <= i < |a.keys| && a.keys[i] == k;
    assert b.keys[..|a.keys|][i] == k;
  }

  lemma KeysGrowSame(r: Record)
    ensures KeysGrow(r, r)
  {
    assert r.keys[..|r.keys|] == r.keys;
  }

  lemma SetGrows(r: Record, k: string, v: Val)
    ensures KeysGrow(r, Set(r, k, v))
    ensures k in Set(r, k, v).keys && k in Set(r, k, v).vals
  {
    var o := Set(r, k, v);
    if Valid(r) {
      SetValid(r, k, v);
    }
    assert o.keys[..|r.keys|] == r.keys;
  }

  function MigrateName(r: Record): (o: Record)
    ensures OneWrite(r, o, NameKey)
    ensures Get(o, NameKey) == if NameMigrates(r) then Get(r, LegacyName) else Get(r, NameKey)
  {
    if NameMigrates(r) then Set(r, NameKey, Get(r, LegacyName)) else r
  }

  function MigrateAlias(r: Record, alias: string, key: string): (o: Record)
    ensures OneWrite(r, o, key)
    ensures Get(o, key) == if AliasMigrates(r, alias, key) then Num(Get(r, alias)) else Get(r, key)
  {
    if AliasMigrates(r, alias, key) then Set(r, key, Num(Get(r, alias))) else r
  }

  function Coerce(r: Record, key: string): (o: Record)
    ensures OneWrite(r, o, key)
    ensures Get(o, key) == Num(Get(r, key))
  {
    Set(r, key, Num(Get(r, key)))
  }

  function WriteSex(r: Record): (o: Record)
    ensures OneWrite(r, o, SexKey)
    ensures Get(o, SexKey) == NormalizeSex(Get(r, SexKey))
  {
    Set(r, SexKey, NormalizeSex(Get(r, SexKey)))
  }

  /** normalizeRecord(r). A value that is not an object (None) gives `{}`.
      For an object, the numeric fields become a number or null, read from the
      legacy column when that is set and the canonical one is not; "name" is
      taken from "Name" when that is truthy and "name" is not; the sex field is
      normalised; every other key keeps its value. */
  function NormalizeRecord(x: Option<Record>): (o: Record)
    ensures x.None? ==> o == Empty
    ensures x.Some? ==> Get(o, WeightKey) == NumericField(x.value, LegacyWeight, WeightKey)
    ensures x.Some? ==> Get(o, AgeKey) == NumericField(x.value, LegacyAge, AgeKey)
    ensures x.Some? ==> Get(o, HeightKey) == NumericField(x.value, LegacyHeight, HeightKey)
    ensures x.Some? ==> Get(o, SexKey) == NormalizeSex(Get(x.value, SexKey))
    ensures x.Some? ==> Get(o, NameKey) == if NameMigrates(x.value) then Get(x.value, LegacyName) else Get(x.value, NameKey)
    ensures x.Some? ==> forall k :: !IsCanonicalKey(k) ==> Get(o, k) == Get(x.value, k)
  {
    match x
    case None => Empty
    case Some(r) =>
      PipelineNumeric(r, LegacyWeight, WeightKey);
      PipelineNumeric(r, LegacyAge, AgeKey);
      PipelineNumeric(r, LegacyHeight, HeightKey);
      PipelineSex(r);
      PipelineName(r);
      PipelineOthers(r);
      Pipeline(r)
  }

  /** The steps of normalizeRecord in order: the name and alias migrations,
      then the three coercions and the sex write. */
  function Pipeline(r: Record): Record {
    var r1 := MigrateName(r);
    var r4 := MigrateAlias(MigrateAlias(MigrateAlias(r1, LegacyWeight, WeightKey), LegacyAge, AgeKey), LegacyHeight, HeightKey);
    WriteSex(Coerce(Coerce(Coerce(r4, WeightKey), AgeKey), HeightKey))
  }

  lemma PipelineNumeric(r: Record, alias: string, key: string)
    requires (alias, key) in {(LegacyWeight, WeightKey), (LegacyAge, AgeKey), (LegacyHeight, HeightKey)}
    ensures Get(Pipeline(r), key) == NumericField(r, alias, key)
  {
    KeysDistinct();
    var r1 := MigrateName(r);
    var r2 := MigrateAlias(r1, LegacyWeight, WeightKey);
    var r3 := MigrateAlias(r2, LegacyAge, AgeKey);
    var r4 := MigrateAlias(r3, LegacyHeight, HeightKey);
    var r5 := Coerce(r4, WeightKey);
    var r6 := Coerce(r5, AgeKey);
    var r7 := Coerce(r6, HeightKey);
    NumIdempotent(Get(r, alias));
    if key == WeightKey {
      assert Get(r1, alias) == Get(r, alias) && Get(r1, key) == Get(r, key);
      assert Get(r5, key) == NumericField(r, alias, key);
    } else if key == AgeKey {
      assert Get(r2, alias) == Get(r, alias) && Get(r2, key) == Get(r, key);
      assert Get(r6, key) == NumericField(r, alias, key);
    } else {
      assert Get(r3, alias) == Get(r, alias) && Get(r3, key) == Get(r, key);
      assert Get(r7, key) == NumericField(r, alias, key);
    }
  }

  lemma PipelineSex(r: Record)
    ensures Get(Pipeline(r), SexKey) == NormalizeSex(Get(r, SexKey))
  {
    KeysDistinct();
    var r1 := MigrateName(r);
    var r2 := MigrateAlias(r1, LegacyWeight, WeightKey);
    var r3 := MigrateAlias(r2, LegacyAge, AgeKey);
    var r4 := MigrateAlias(r3, LegacyHeight, HeightKey);
    var r5 := Coerce(r4, WeightKey);
    var r6 := Coerce(r5, AgeKey);
    var r7 := Coerce(r6, HeightKey);
    assert Get(r1, SexKey) == Get(r, SexKey);
    assert Get(r2, SexKey) == Get(r1, SexKey);
    assert Get(r3, SexKey) == Get(r2, SexKey);
    assert Get(r4, SexKey) == Get(r3, SexKey);
    assert Get(r5, SexKey) == Get(r4, SexKey);
    assert Get(r6, SexKey) == Get(r5, SexKey);
    assert Get(r7, SexKey) == Get(r6, SexKey);
    assert Pipeline(r) == WriteSex(r7);
  }

  lemma PipelineName(r: Record)
    ensures Get(Pipeline(r), NameKey) == if NameMigrates(r) then Get(r, LegacyName) else Get(r, NameKey)
  {
    KeysDistinct();
    var r1 := MigrateName(r);
    var r2 := MigrateAlias(r1, LegacyWeight, WeightKey);
    var r3 := MigrateAlias(r2, LegacyAge, AgeKey);
    var r4 := MigrateAlias(r3, LegacyHeight, HeightKey);
    var r5 := Coerce(r4, WeightKey);
    var r6 := Coerce(r5, AgeKey);
    var r7 := Coerce(r6, HeightKey);
    assert Get(r2, NameKey) == Get(r1, NameKey);
    assert Get(r3, NameKey) == Get(r2, NameKey);
    assert Get(r4, NameKey) == Get(r3, NameKey);
    assert Get(r5, NameKey) == Get(r4, NameKey);
    assert Get(r6, NameKey) == Get(r5, NameKey);
    assert Get(r7, NameKey) == Get(r6, NameKey);
    assert Pipeline(r) == WriteSex(r7);
  }

  lemma PipelineOthers(r: Record)
    ensures forall k :: !IsCanonicalKey(k) ==> Get(Pipeline(r), k) == Get(r, k)
  {
  }

  /** For an object, each numeric field ends up a finite number or null. */
  lemma NormalizedNumbers(r: Record)
    ensures var o := NormalizeRecord(Some(r));
      && (Get(o, WeightKey).Null? || Get(o, WeightKey).Number?)
      && (Get(o, AgeKey).Null? || Get(o, AgeKey).Number?)
      && (Get(o, HeightKey).Null? || Get(o, HeightKey).Number?)
  {
  }

  /** normalizeRecord keeps the keys of an object and their order, and always
      holds the four fields it writes. */
  lemma NormalizeRecordKeys(r: Record)
    ensures var o := NormalizeRecord(Some(r));
      && KeysGrow(r, o)
      && WeightKey in o.keys && AgeKey in o.keys && HeightKey in o.keys && SexKey in o.keys
      && WeightKey in o.vals && AgeKey in o.vals && HeightKey in o.vals && SexKey in o.vals
  {
    var r1 := MigrateName(r);
    var r4 := MigrateAlias(MigrateAlias(MigrateAlias(r1, LegacyWeight, WeightKey), LegacyAge, AgeKey), LegacyHeight, HeightKey);
    var o := NormalizeRecord(Some(r));
    assert o == WriteSex(Coerce(Coerce(Coerce(r4, WeightKey), AgeKey), HeightKey));
    NameStep(r);
    AliasSteps(r1);
    CoerceSteps(r4);
    KeysExtendTrans(r, r1, r4);
    KeysExtendTrans(r, r4, o);
  }

  lemma NameStep(r: Record)
    ensures var r1 := MigrateName(r);
      && KeysGrow(r, r1)
  {
    if NameMigrates(r) {
      SetGrows(r, NameKey, Get(r, LegacyName));
    } else {
      KeysGrowSame(r);
    }
  }

  lemma AliasStep(r: Record, alias: string, key: string)
    ensures KeysGrow(r, MigrateAlias(r, alias, key))
  {
    if AliasMigrates(r, alias, key) {
      SetGrows(r, key, Num(Get(r, alias)));
    } else {
      KeysGrowSame(r);
    }
  }

  /** The three alias migrations keep every key. */
  lemma AliasSteps(r1: Record)
    ensures var r4 := MigrateAlias(MigrateAlias(MigrateAlias(r1, LegacyWeight, WeightKey), LegacyAge, AgeKey), LegacyHeight, HeightKey);
      && KeysGrow(r1, r4)
  {
    var r2 := MigrateAlias(r1, LegacyWeight, WeightKey);
    var r3 := MigrateAlias(r2, LegacyAge, AgeKey);
    var r4 := MigrateAlias(r3, LegacyHeight, HeightKey);
    AliasStep(r1, LegacyWeight, WeightKey);
    AliasStep(r2, LegacyAge, AgeKey);
    AliasStep(r3, LegacyHeight, HeightKey);
    KeysExtendTrans(r1, r2, r3);
    KeysExtendTrans(r1, r3, r4);
  }

  /** The coercions and the sex write leave the four keys they write present. */
  lemma CoerceSteps(r4: Record)
    ensures var o := WriteSex(Coerce(Coerce(Coerce(r4, WeightKey), AgeKey), HeightKey));
      && KeysGrow(r4, o)
      && WeightKey in o.keys && AgeKey in o.keys && HeightKey in o.keys && SexKey in o.keys
      && WeightKey in o.vals && AgeKey in o.vals && HeightKey in o.vals && SexKey in o.vals
  {
    CoerceGrow(r4);
    CoerceHas(r4);
  }

  lemma CoerceGrow(r4: Record)
    ensures KeysGrow(r4, WriteSex(Coerce(Coerce(Coerce(r4, WeightKey), AgeKey), HeightKey)))
  {
    var r5 := Coerce(r4, WeightKey);
    var r6 := Coerce(r5, AgeKey);
    var r7 := Coerce(r6, HeightKey);
    var o := WriteSex(r7);
    SetGrows(r4, WeightKey, Num(Get(r4, WeightKey)));
    SetGrows(r5, AgeKey, Num(Get(r5, AgeKey)));
    SetGrows(r6, HeightKey, Num(Get(r6, HeightKey)));
    SetGrows(r7, SexKey, NormalizeSex(Get(r7, SexKey)));
    KeysExtendTrans(r4, r5, r6);
    KeysExtendTrans(r4, r6, r7);
    KeysExtendTrans(r4, r7, o);
  }

  lemma CoerceHas(r4: Record)
    ensures var o := WriteSex(Coerce(Coerce(Coerce(r4, WeightKey), AgeKey), HeightKey));
      && WeightKey in o.keys && AgeKey in o.keys && HeightKey in o.keys && SexKey in o.keys
      && WeightKey in o.vals && AgeKey in o.vals && HeightKey in o.vals && SexKey in o.vals
  {
    var r5 := Coerce(r4, WeightKey);
    var r6 := Coerce(r5, AgeKey);
    var r7 := Coerce(r6, HeightKey);
    var o := WriteSex(r7);
    SetGrows(r4, WeightKey, Num(Get(r4, WeightKey)));
    SetGrows(r5, AgeKey, Num(Get(r5, AgeKey)));
    SetGrows(r6, HeightKey, Num(Get(r6, HeightKey)));
    SetGrows(r7, SexKey, NormalizeSex(Get(r7, SexKey)));
    ExtendKeepsKey(r5, o, WeightKey) by { KeysExtendTrans(r5, r6, r7); KeysExtendTrans(r5, r7, o); }
    ExtendKeepsKey(r6, o, AgeKey) by { KeysExtendTrans(r6, r7, o); }
    ExtendKeepsKey(r7, o, HeightKey);
  }

  lemma KeysExtendTrans(a: Record, b: Record, c: Record)
    requires KeysExtend(a, b) && KeysExtend(b, c)
    ensures KeysExtend(a, c)
  {
    assert c.keys[..|a.keys|] == c.keys[..|b.keys|][..|a.keys|];
  }

  // ---------------------------------------------------------------------------
  // Idempotence

  /** A canonical numeric field that is set but not numeric hides its legacy
      column on the first pass; a second pass then reads the legacy column. */
  predicate Shadowed(r: Record, alias: string, key: string) {
    && !Nullish(Get(r, alias)) && !Nullish(Get(r, key))
    && Num(Get(r, key)).Null? && !Num(Get(r, alias)).Null?
  }

  predicate NoShadowedAlias(r: Record) {
    && !Shadowed(r, LegacyWeight, WeightKey)
    && !Shadowed(r, LegacyAge, AgeKey)
    && !Shadowed(r, LegacyHeight, HeightKey)
  }

  /** Normalising an object twice is normalising it once exactly when no legacy
      numeric column is shadowed. */
  lemma NormalizeRecordIdempotent(r: Record)
    ensures NormalizeRecord(Some(NormalizeRecord(Some(r)))) == NormalizeRecord(Some(r))
            <==> NoShadowedAlias(r)
  {
    KeysDistinct();
    var o := NormalizeRecord(Some(r));
    var o2 := NormalizeRecord(Some(o));
    if NoShadowedAlias(r) {
      SecondPass(r, o);
    } else {
      if Shadowed(r, LegacyWeight, WeightKey) {
        assert Get(o2, WeightKey) != Get(o, WeightKey);
      } else if Shadowed(r, LegacyAge, AgeKey) {
        assert Get(o2, AgeKey) != Get(o, AgeKey);
      } else {
        assert Get(o2, HeightKey) != Get(o, HeightKey);
      }
    }
  }

  lemma SecondPass(r: Record, o: Record)
    requires o == NormalizeRecord(Some(r)) && NoShadowedAlias(r)
    ensures NormalizeRecord(Some(o)) == o
  {
    FirstPassFacts(r, o);
    assert MigrateName(o) == o;
    AliasIdentity(o, LegacyWeight, WeightKey);
    AliasIdentity(o, LegacyAge, AgeKey);
    AliasIdentity(o, LegacyHeight, HeightKey);
    CoerceIdentity(o, WeightKey);
    CoerceIdentity(o, AgeKey);
    CoerceIdentity(o, HeightKey);
    SetSame(o, SexKey);
    assert NormalizeRecord(Some(o)) == WriteSex(Coerce(Coerce(Coerce(
      MigrateAlias(MigrateAlias(MigrateAlias(MigrateName(o), LegacyWeight, WeightKey), LegacyAge, AgeKey), LegacyHeight, HeightKey),
      WeightKey), AgeKey), HeightKey));
  }

  /** After one pass over an object with no shadowed alias, every step of a
      second pass would write back what is already there. */
  lemma FirstPassFacts(r: Record, o: Record)
    requires o == NormalizeRecord(Some(r)) && NoShadowedAlias(r)
    ensures !NameMigrates(o)
    ensures WeightKey in o.keys && AgeKey in o.keys && HeightKey in o.keys && SexKey in o.keys
    ensures WeightKey in o.vals && AgeKey in o.vals && HeightKey in o.vals && SexKey in o.vals
    ensures AliasMigrates(o, LegacyWeight, WeightKey) ==> Num(Get(o, LegacyWeight)) == Get(o, WeightKey)
    ensures AliasMigrates(o, LegacyAge, AgeKey) ==> Num(Get(o, LegacyAge)) == Get(o, AgeKey)
    ensures AliasMigrates(o, LegacyHeight, HeightKey) ==> Num(Get(o, LegacyHeight)) == Get(o, HeightKey)
    ensures Get(o, WeightKey).Null? || Get(o, WeightKey).Number?
    ensures Get(o, AgeKey).Null? || Get(o, AgeKey).Number?
    ensures Get(o, HeightKey).Null? || Get(o, HeightKey).Number?
    ensures NormalizeSex(Get(o, SexKey)) == Get(o, SexKey)
  {
    FirstPassName(r);
    NormalizeRecordKeys(r);
    FirstPassAlias(r, LegacyWeight, WeightKey);
    FirstPassAlias(r, LegacyAge, AgeKey);
    FirstPassAlias(r, LegacyHeight, HeightKey);
    NormalizeSexIdempotent(Get(r, SexKey));
  }

  /** After one pass a numeric field is a number or null, and reading its
      legacy column again would give the same value. */
  lemma FirstPassAlias(r: Record, alias: string, key: string)
    requires (alias, key) in {(LegacyWeight, WeightKey), (LegacyAge, AgeKey), (LegacyHeight, HeightKey)}
    requires !Shadowed(r, alias, key)
    ensures var o := NormalizeRecord(Some(r));
      && (AliasMigrates(o, alias, key) ==> Num(Get(o, alias)) == Get(o, key))
      && (Get(o, key).Null? || Get(o, key).Number?)
  {
    var o := NormalizeRecord(Some(r));
    KeysDistinct();
    assert Get(o, alias) == Get(r, alias);
    assert Get(o, key) == NumericField(r, alias, key);
    NumIdempotent(Get(r, alias));
  }

  /** After one pass "name" is truthy whenever "Name" is. */
  lemma FirstPassName(r: Record)
    ensures !NameMigrates(NormalizeRecord(Some(r)))
  {
    var o := NormalizeRecord(Some(r));
    KeysDistinct();
    assert Get(o, LegacyName) == Get(r, LegacyName);
  }

  /** A migration that would write the value already there changes nothing. */
  lemma AliasIdentity(o: Record, alias: string, key: string)
    requires key in o.keys && key in o.vals
    requires AliasMigrates(o, alias, key) ==> Num(Get(o, alias)) == Get(o, key)
    ensures MigrateAlias(o, alias, key) == o
  {
    SetSame(o, key);
  }

  /** Coercing a field that is already a number or null changes nothing. */
  lemma CoerceIdentity(o: Record, key: string)
    requires key in o.keys && key in o.vals
    requires Get(o, key).Null? || Get(o, key).Number?
    ensures Coerce(o, key) == o
  {
    SetSame(o, key);
  }

  /** A shadowed numeric field is null after one pass, and a second pass
      migrates the legacy column's number over that null. */
  lemma ShadowedPasses(r: Record, alias: string, key: string)
    requires (alias, key) in {(LegacyWeight, WeightKey), (LegacyAge, AgeKey), (LegacyHeight, HeightKey)}
    requires Shadowed(r, alias, key)
    ensures var o := NormalizeRecord(Some(r));
      && Get(o, key) == Null
      && Get(NormalizeRecord(Some(o)), key) == Num(Get(r, alias))
      && Get(NormalizeRecord(Some(o)), key) != Get(o, key)
  {
    var o := NormalizeRecord(Some(r));
    var o2 := NormalizeRecord(Some(o));
    KeysDistinct();
    assert !AliasMigrates(r, alias, key);
    assert Get(o, key) == Null by {
      assert Get(o, key) == NumericField(r, alias, key);
    }
    assert AliasMigrates(o, alias, key) by {
      assert Get(o, alias) == Get(r, alias);
    }
    assert Get(o2, key) == Num(Get(o, alias));
    NumIdempotent(Get(r, alias));
  }

  /** A numeric column holding text next to a numeric legacy column: the first
      pass gives null, the second reads the legacy value 5. */
  lemma ShadowedWeightExample()
    ensures var r := Set(Set(Empty, WeightKey, Str("abc")), LegacyWeight, Str("5"));
      && !NoShadowedAlias(r)
      && Get(NormalizeRecord(Some(r)), WeightKey) == Null
      && Get(NormalizeRecord(Some(NormalizeRecord(Some(r)))), WeightKey) == Number(5.0)
  {
    var r := Set(Set(Empty, WeightKey, Str("abc")), LegacyWeight, Str("5"));
    assert Get(r, WeightKey) == Str("abc");
    assert Get(r, LegacyWeight) == Str("5");
    ParseFloatNaN();
    PrintThenParse(5.0);
    IntegralPrint(5);
    assert NumToString(5.0) == "5";
    ShadowedBy(r, LegacyWeight, WeightKey, "5", "abc");
    ShadowedPasses(r, LegacyWeight, WeightKey);
  }

  lemma ShadowedBy(r: Record, alias: string, key: string, a: string, k: string)
    requires Get(r, alias) == Str(a) && Get(r, key) == Str(k)
    requires Num(Str(a)).Number? && Num(Str(k)).Null?
    ensures Shadowed(r, alias, key)
  {
  }

  /** A value that is not an object normalises to `{}`, which in turn gets the
      four fields normalizeRecord always writes, so it is not a fixed point. */
  lemma NonObjectNotIdempotent()
    ensures NormalizeRecord(None) == Empty
    ensures NormalizeRecord(Some(NormalizeRecord(None))) != NormalizeRecord(None)
  {
    var o := NormalizeRecord(Some(Empty));
    NormalizeRecordKeys(Empty);
  }
}
