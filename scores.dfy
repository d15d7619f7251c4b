/** The score mapping of app.py (`map_scores_to_frontend` and its nested
    `get_score`): a loosely typed score document becomes the fixed-schema
    dictionary the frontend reads, every score an integer in [0, 100]. */
module Scores {
  import opened PyJson
  import opened Results

  // ---------------------------------------------------------------------
  // Python's int() on the values a score document can hold
  // ---------------------------------------------------------------------

  /** `int(x)` on a float: truncation toward zero. */
  function TruncateReal(x: real): (n: int)
    ensures 0.0 <= x ==> 0 <= n && n as real <= x < n as real + 1.0
    ensures x < 0.0 ==> n <= 0 && n as real - 1.0 < x <= n as real
  {
    if x >= 0.0 then x.Floor else -((-x).Floor)
  }

  /** The characters `int()` strips around a numeral: the ASCII whitespace
      tab, line feed, vertical tab, form feed, carriage return and space, and
      the non-ASCII Unicode spaces. The ASCII separators U+001C to U+001F,
      which `str.isspace` accepts, are not stripped. */
  predicate IsSpace(c: char)
  {
    var n := c as int;
    (9 <= n <= 13) || n == 32 || n == 0x85 || n == 0xA0 || n == 0x1680
    || (0x2000 <= n <= 0x200A) || n == 0x2028 || n == 0x2029 || n == 0x202F
    || n == 0x205F || n == 0x3000
  }

  predicate IsDigit(c: char)
  {
    '0' <= c <= '9'
  }

  function StripLeading(s: string): string
  {
    if |s| > 0 && IsSpace(s[0]) then StripLeading(s[1..]) else s
  }

  function StripTrailing(s: string): string
  {
    if |s| > 0 && IsSpace(s[|s| - 1]) then StripTrailing(s[..|s| - 1]) else s
  }

  function Strip(s: string): string
  {
    StripTrailing(StripLeading(s))
  }

  /** A base-10 numeral body as `int()` accepts it: digits, where a single
      underscore may separate two digits. */
  predicate WellFormedDigits(d: string)
  {
    && |d| > 0
    && IsDigit(d[0])
    && IsDigit(d[|d| - 1])
    && (forall i :: 0 <= i < |d| ==> IsDigit(d[i]) || d[i] == '_')
    && (forall i :: 0 <= i < |d| - 1 && d[i] == '_' ==> IsDigit(d[i + 1]))
  }

  /** The most digits `int()` converts from a string: Python's default
      `sys.get_int_max_str_digits()`. */
  const MaxStrDigits := 4300

  /** The number of digits in a digit string, underscores not counted. */
  function DigitCount(d: string): nat
  {
    if d == [] then 0 else DigitCount(d[..|d| - 1]) + if IsDigit(d[|d| - 1]) then 1 else 0
  }

  /** The number a digit string denotes, underscores skipped. */
  function DigitsValue(d: string): nat
  {
    if d == [] then 0
    else
      var last := d[|d| - 1];
      if IsDigit(last) then DigitsValue(d[..|d| - 1]) * 10 + (last as int - '0' as int)
      else DigitsValue(d[..|d| - 1])
  }

  /** `t` is a numeral `int()` reads: an optional sign, then a digit body of
      at most `MaxStrDigits` digits. */
  predicate IsNumeral(t: string, sign: string, d: string)
  {
    && (sign == "" || sign == "+" || sign == "-")
    && t == sign + d
    && WellFormedDigits(d)
    && DigitCount(d) <= MaxStrDigits
  }

  /** The value of a signed numeral. */
  function NumeralValue(sign: string, d: string): int
  {
    if sign == "-" then -(DigitsValue(d) as int) else DigitsValue(d) as int
  }

  /** `int(s)` on a string: `None` where Python raises `ValueError`, which
      it also does for more than `MaxStrDigits` digits. */
  function ParseInt(s: string): (r: Option<int>)
    ensures r.Some? ==> |Strip(s)| > 0 && IsDigit(Strip(s)[|Strip(s)| - 1])
    ensures r.Some? && r.value < 0 ==> Strip(s)[0] == '-'
  {
    var t := Strip(s);
    var signed := |t| > 0 && (t[0] == '+' || t[0] == '-');
    var d := if signed then t[1..] else t;
    if !WellFormedDigits(d) || DigitCount(d) > MaxStrDigits then None
    else
      var n: int := DigitsValue(d);
      Some(if signed && t[0] == '-' then -n else n)
  }

  /** `int()` reads a value exactly when the string, once stripped, is a
      numeral, and the value is that numeral's. */
  lemma ParseIntReadsNumerals(s: string)
    ensures ParseInt(s).Some? ==> exists sign: string, d: string ::
      IsNumeral(Strip(s), sign, d) && ParseInt(s).value == NumeralValue(sign, d)
    ensures forall sign: string, d: string :: IsNumeral(Strip(s), sign, d) ==>
      ParseInt(s) == Some(NumeralValue(sign, d))
  {
    var t := Strip(s);
    var signed := |t| > 0 && (t[0] == '+' || t[0] == '-');
    var d := if signed then t[1..] else t;
    NumeralSplit(t);
    if WellFormedDigits(d) && DigitCount(d) <= MaxStrDigits {
      var sign := if signed then t[..1] else "";
      assert t == sign + d;
      assert sign == "-" <==> signed && t[0] == '-';
      assert IsNumeral(t, sign, d);
      assert ParseInt(s) == Some(NumeralValue(sign, d));
    } else {
      assert ParseInt(s) == None;
    }
  }

  /** A string splits into sign and digit body in at most one way: a body
      starts with a digit, so a leading sign belongs to the sign. */
  lemma NumeralSplit(t: string)
    ensures forall sign: string, d: string :: IsNumeral(t, sign, d) ==>
      sign == (if |t| > 0 && (t[0] == '+' || t[0] == '-') then t[..1] else "")
      && d == (if |t| > 0 && (t[0] == '+' || t[0] == '-') then t[1..] else t)
  {
    forall sign: string, d: string | IsNumeral(t, sign, d)
      ensures sign == (if |t| > 0 && (t[0] == '+' || t[0] == '-') then t[..1] else "")
      ensures d == (if |t| > 0 && (t[0] == '+' || t[0] == '-') then t[1..] else t)
    {
      if sign == "" {
        assert t == d && IsDigit(t[0]);
      } else {
        assert t[0] == sign[0] && t[..1] == sign && t[1..] == d;
      }
    }
  }

  /** `str(n)` for a natural number. */
  function NatToDecimal(n: nat): string
  {
    if n < 10 then ['0' + n as char] else NatToDecimal(n / 10) + ['0' + (n % 10) as char]
  }

  /** `str(n)`. */
  function IntToDecimal(n: int): string
  {
    if n < 0 then "-" + NatToDecimal(-n) else NatToDecimal(n)
  }

  lemma {:induction false} NatToDecimalDigits(n: nat)
    ensures |NatToDecimal(n)| > 0
    ensures forall i :: 0 <= i < |NatToDecimal(n)| ==> IsDigit(NatToDecimal(n)[i])
    ensures DigitsValue(NatToDecimal(n)) == n
    ensures DigitCount(NatToDecimal(n)) == |NatToDecimal(n)|
  {
    if n >= 10 {
      NatToDecimalDigits(n / 10);
      var d := NatToDecimal(n);
      assert d[..|d| - 1] == NatToDecimal(n / 10);
    }
  }

  /** `int(str(n)) == n`: the string conversion reads back every integer of
      at most `MaxStrDigits` digits, and refuses the longer ones. */
  lemma ParseIntRoundTrip(n: int)
    ensures var m := if n < 0 then -n else n;
      ParseInt(IntToDecimal(n)) == if |NatToDecimal(m)| <= MaxStrDigits then Some(n) else None
  {
    var m: nat := if n < 0 then -n else n;
    var d := NatToDecimal(m);
    DecimalIsNumeral(m);
    ParseNumeral(IntToDecimal(n), d, n < 0);
  }

  /** The decimal form of a natural number is a digit body denoting it. */
  lemma DecimalIsNumeral(m: nat)
    ensures WellFormedDigits(NatToDecimal(m))
    ensures DigitsValue(NatToDecimal(m)) == m
    ensures DigitCount(NatToDecimal(m)) == |NatToDecimal(m)|
  {
    NatToDecimalDigits(m);
  }

  /** A numeral without padding: a digit string, perhaps after a minus sign. */
  lemma ParseNumeral(t: string, d: string, negative: bool)
    requires t == (if negative then "-" else "") + d
    requires WellFormedDigits(d)
    ensures ParseInt(t) == if DigitCount(d) <= MaxStrDigits
      then Some(if negative then -(DigitsValue(d) as int) else DigitsValue(d) as int) else None
  {
    assert !IsSpace(t[0]) && !IsSpace(t[|t| - 1]);
    assert Strip(t) == t;
    if negative {
      assert t[0] == '-' && t[1..] == d;
    } else {
      assert t == d && IsDigit(t[0]);
    }
  }

  /** A numeral padded with an information separator (U+001C) is refused:
      `int()` does not strip it. */
  lemma SeparatorNotStripped()
    ensures ParseInt("\U{1C}5") == None
  {
    var t := "\U{1C}5";
    assert !IsSpace(t[0]) && !IsSpace(t[1]);
    assert Strip(t) == t;
    assert !IsDigit(t[0]);
  }

  /** Whitespace padding and a sign are accepted. */
  lemma PaddedNumeral()
    ensures ParseInt(" -42\n") == Some(-42)
  {
    var t := " -42\n";
    assert StripLeading(t) == t[1..] && StripLeading(t[1..]) == t[1..];
    assert StripTrailing(t[1..]) == StripTrailing(t[1..4]) == t[1..4] == "-42";
    ParseNumeral("-42", "42", true);
    SamePadding(t, "-42");
  }

  /** A non-ASCII space is stripped too. */
  lemma WidePaddedNumeral()
    ensures ParseInt("\U{3000}7") == Some(7)
  {
    var u := "\U{3000}7";
    assert StripLeading(u) == u[1..] == "7";
    ParseNumeral("7", "7", false);
    SamePadding(u, "7");
  }

  /** `int()` reads only what is left once the padding is stripped. */
  lemma SamePadding(t1: string, t2: string)
    requires Strip(t1) == Strip(t2)
    ensures ParseInt(t1) == ParseInt(t2)
  {
  }

  /** A single underscore may separate digits; two in a row may not. */
  lemma UnderscoredNumeral()
    ensures ParseInt("1_0") == Some(10)
    ensures ParseInt("1__0") == None
  {
    assert DigitsValue("1_0") == 10 by { assert "1_0"[..2] == "1_" && "1_"[..1] == "1"; }
    assert WellFormedDigits("1_0");
    assert DigitCount("1_0") == 2 by { assert "1_0"[..2] == "1_" && "1_"[..1] == "1"; }
    ParseNumeral("1_0", "1_0", false);
    DoubledUnderscore("1__0");
  }

  /** A digit body with two underscores in a row is not well formed. */
  lemma DoubledUnderscore(t: string)
    requires t == "1__0"
    ensures ParseInt(t) == None
  {
    assert Strip(t) == t;
    assert t[1] == '_' && !IsDigit(t[2]);
    assert !WellFormedDigits(t);
  }

  /** The exception `int()` raises on a value it cannot convert. */
  datatype ConversionError = TypeError(arg: Json) | ValueError(arg: Json)

  /** Python's `int(v)` on a JSON value. */
  function PyInt(v: Json): (r: Result<int, ConversionError>)
    ensures r.Err? <==> v.Null? || v.Arr? || v.Obj? || (v.Str? && ParseInt(v.s).None?)
    ensures v.Int? ==> r == Ok(v.i)
    ensures v.Bool? ==> r == Ok(if v.b then 1 else 0)
    ensures v.Float? ==> r == Ok(TruncateReal(v.f))
    ensures v.Str? && r.Ok? ==> ParseInt(v.s) == Some(r.value)
  {
    match v
    case Bool(b) => Ok(if b then 1 else 0)
    case Int(i) => Ok(i)
    case Float(f) => Ok(TruncateReal(f))
    case Str(s) =>
      (match ParseInt(s)
       case Some(n) => Ok(n)
       case None => Err(ValueError(v)))
    case _ => Err(TypeError(v))
  }

  // ---------------------------------------------------------------------
  // get_score
  // ---------------------------------------------------------------------

  /** `max(0, min(100, n))`. */
  function Clamp(n: int): (r: int)
    ensures 0 <= r <= 100
    ensures 0 <= n <= 100 ==> r == n
    ensures n < 0 ==> r == 0
    ensures n > 100 ==> r == 100
  {
    if n < 0 then 0 else if n > 100 then 100 else n
  }

  /** The value `get_score` hands to `int()`: for a dict its `ui_score`, else
      its `raw_score`, else the default; a number as it is; anything else,
      and an absent key (read as `{}`), the default. */
  function RawScore(doc: map<string, Json>, key: string, default: int): (v: Json)
    ensures key !in doc ==> v == Int(default)
    ensures !(key in doc && doc[key].Obj?) ==> v.Int? || v.Bool? || v.Float?
    ensures key in doc && doc[key].Obj? && "ui_score" in doc[key].fields ==> v == doc[key].fields["ui_score"]
  {
    match Get(doc, key, EmptyObj)
    case Obj(m) => Get(m, "ui_score", Get(m, "raw_score", Int(default)))
    case Bool(b) => Bool(b)
    case Int(i) => Int(i)
    case Float(f) => Float(f)
    case _ => Int(default)
  }

  /** `get_score(key, default)`: the score, or the exception `int()` raises. */
  function GetScore(doc: map<string, Json>, key: string, default: int): (r: Result<int, ConversionError>)
    ensures r.Ok? ==> 0 <= r.value <= 100
    ensures r.Err? ==> key in doc && doc[key].Obj?
  {
    Scored(RawScore(doc, key, default))
  }

  /** A key absent from the document scores its default. */
  lemma GetScoreDefault(doc: map<string, Json>, key: string, default: int)
    requires key !in doc
    ensures GetScore(doc, key, default) == Ok(Clamp(default))
  {
  }

  /** For a dict, `ui_score` wins over `raw_score`, which wins over the default;
      a key that is present counts even when it holds `null`. */
  lemma GetScorePreference(doc: map<string, Json>, key: string, default: int)
    requires key in doc && doc[key].Obj?
    ensures var m := doc[key].fields;
      GetScore(doc, key, default)
      == if "ui_score" in m then Scored(m["ui_score"])
         else if "raw_score" in m then Scored(m["raw_score"])
         else Ok(Clamp(default))
  {
  }

  /** `int()` then clamp, as `get_score` does for the value it picked. */
  function Scored(v: Json): (r: Result<int, ConversionError>)
    ensures r.Ok? ==> 0 <= r.value <= 100
    ensures r.Err? <==> v.Null? || v.Arr? || v.Obj? || (v.Str? && ParseInt(v.s).None?)
    ensures r.Ok? <==> PyInt(v).Ok?
    ensures r.Ok? ==> r.value == Clamp(PyInt(v).value)
  {
    match PyInt(v)
    case Ok(n) => Ok(Clamp(n))
    case Err(e) => Err(e)
  }

  /** A bare number is truncated toward zero and clamped, a bool reads as 0/1,
      and anything that is neither number nor dict scores the default. */
  lemma GetScoreNonObject(doc: map<string, Json>, key: string, default: int)
    requires key in doc && !doc[key].Obj?
    ensures GetScore(doc, key, default).Ok?
    ensures doc[key].Int? ==> GetScore(doc, key, default) == Ok(Clamp(doc[key].i))
    ensures doc[key].Float? ==> GetScore(doc, key, default) == Ok(Clamp(TruncateReal(doc[key].f)))
    ensures doc[key].Bool? ==> GetScore(doc, key, default) == Ok(if doc[key].b then 1 else 0)
    ensures doc[key].Null? || doc[key].Str? || doc[key].Arr? ==> GetScore(doc, key, default) == Ok(Clamp(default))
  {
  }

  /** 150 becomes 100, -3 becomes 0, -3.7 truncates to -3 and becomes 0,
      99.9 truncates to 99. The doubles nearest -3.7 and 99.9 truncate the
      same way as the exact decimals written here. */
  lemma GetScoreExamples()
    ensures GetScore(map["k" := Int(150)], "k", 50) == Ok(100)
    ensures GetScore(map["k" := Int(-3)], "k", 50) == Ok(0)
    ensures GetScore(map["k" := Float(-3.7)], "k", 50) == Ok(0)
    ensures GetScore(map["k" := Float(99.9)], "k", 50) == Ok(99)
    ensures GetScore(map["k" := Obj(map["ui_score" := Null, "raw_score" := Int(70)])], "k", 50)
            == Err(TypeError(Null))
  {
    assert TruncateReal(-3.7) == -3;
    assert TruncateReal(99.9) == 99;
  }

  // ---------------------------------------------------------------------
  // map_scores_to_frontend
  // ---------------------------------------------------------------------

  /** One bounded entry of the frontend dictionary: its name, the key it is
      read from in the score document, and the default. */
  datatype Field = Field(output: string, source: string, default: int)

  const Fields: seq<Field> := [
    Field("rughe", "hd_wrinkle", 50),
    Field("pori", "hd_pore", 50),
    Field("macchie", "hd_age_spot", 50),
    Field("occhiaie", "hd_dark_circle", 50),
    Field("disidratazione", "hd_moisture", 50),
    Field("acne", "hd_acne", 50),
    Field("pelle_pulita_percent", "all", 80),
    Field("radiance", "hd_radiance", 50),
    Field("firmness", "hd_firmness", 50),
    Field("oiliness", "hd_oiliness", 50),
    Field("texture", "hd_texture", 50),
    Field("redness", "hd_redness", 50)
  ]

  const SkinAgeKey := "skin_age"

  /** The bounded entries of the frontend dictionary. */
  const ScoreKeys: set<string> := {
    "rughe", "pori", "macchie", "occhiaie", "disidratazione", "acne",
    "pelle_pulita_percent", "radiance", "firmness", "oiliness", "texture", "redness"
  }

  /** Exactly the keys of the dictionary `map_scores_to_frontend` returns. */
  const OutputKeys: set<string> := ScoreKeys + {SkinAgeKey}

  predicate DistinctOutputs(fields: seq<Field>)
  {
    forall i, j :: 0 <= i < j < |fields| ==> fields[i].output != fields[j].output
  }

  /** The output names of `fields`. */
  function Outputs(fields: seq<Field>): set<string>
  {
    set i | 0 <= i < |fields| :: fields[i].output
  }

  lemma OutputsCons(fields: seq<Field>)
    requires fields != []
    ensures Outputs(fields) == {fields[0].output} + Outputs(fields[1..])
  {
    forall x | x in Outputs(fields)
      ensures x in {fields[0].output} + Outputs(fields[1..])
    {
      var i :| 0 <= i < |fields| && fields[i].output == x;
      if i > 0 { assert fields[1..][i - 1].output == x; }
    }
    forall x | x in Outputs(fields[1..])
      ensures x in Outputs(fields)
    {
      var i :| 0 <= i < |fields[1..]| && fields[1..][i].output == x;
      assert fields[i + 1].output == x;
    }
  }

  /** `get_score(f.source, f.default)`. */
  function Score(doc: map<string, Json>, f: Field): Result<int, ConversionError>
  {
    GetScore(doc, f.source, f.default)
  }

  /** Every field of `fields` scores without an exception. */
  predicate AllScored(doc: map<string, Json>, fields: seq<Field>)
  {
    forall i :: 0 <= i < |fields| ==> Score(doc, fields[i]).Ok?
  }

  /** Field `i` is the first of `fields` whose score raises. */
  predicate FirstFailure(doc: map<string, Json>, fields: seq<Field>, i: int)
  {
    && 0 <= i < |fields|
    && Score(doc, fields[i]).Err?
    && forall j :: 0 <= j < i ==> Score(doc, fields[j]).Ok?
  }

  /** Why the mapping raised: the document is not a dict (`.get` fails), or
      `int()` failed inside `get_score`. */
  datatype ScoreError = NotADict | Conversion(error: ConversionError)

  /** The entries of `fields`, scored left to right as the dict literal
      evaluates them; the first `int()` failure aborts. */
  function MapFields(doc: map<string, Json>, fields: seq<Field>): (r: Result<map<string, Json>, ConversionError>)
    requires DistinctOutputs(fields)
    ensures r.Ok? <==> AllScored(doc, fields)
    ensures r.Ok? ==> r.value.Keys == Outputs(fields)
    ensures r.Ok? ==> forall i :: 0 <= i < |fields| ==>
      fields[i].output in r.value && r.value[fields[i].output] == Int(Score(doc, fields[i]).value)
    ensures r.Err? ==> exists i :: FirstFailure(doc, fields, i) && Score(doc, fields[i]) == Err(r.error)
  {
    if fields == [] then Ok(map[])
    else
      var f := fields[0];
      var rest := fields[1..];
      AllScoredCons(doc, fields);
      match Score(doc, f)
      case Err(e) =>
        assert FirstFailure(doc, fields, 0);
        Err(e)
      case Ok(v) =>
        assert DistinctOutputs(rest);
        match MapFields(doc, rest)
        case Err(e) =>
          ghost var i :| FirstFailure(doc, rest, i) && Score(doc, rest[i]) == Err(e);
          FirstFailureCons(doc, fields, i);
          Err(e)
        case Ok(m) =>
          OutputsCons(fields);
          ScoredCons(doc, fields, v, m);
          Ok(m[f.output := Int(v)])
  }

  /** Every field scores iff the first does and the rest do. */
  lemma AllScoredCons(doc: map<string, Json>, fields: seq<Field>)
    requires fields != []
    ensures AllScored(doc, fields) <==> Score(doc, fields[0]).Ok? && AllScored(doc, fields[1..])
  {
    assert forall i :: 1 <= i < |fields| ==> fields[i] == fields[1..][i - 1];
  }

  /** The first failure among the rest, after a first field that scores, is
      the first failure of the whole list. */
  lemma FirstFailureCons(doc: map<string, Json>, fields: seq<Field>, i: int)
    requires fields != [] && Score(doc, fields[0]).Ok?
    requires FirstFailure(doc, fields[1..], i)
    ensures FirstFailure(doc, fields, i + 1) && fields[i + 1] == fields[1..][i]
  {
    assert forall j :: 1 <= j <= i ==> fields[j] == fields[1..][j - 1];
  }

  /** Adding the first field's score to the scores of the rest scores every
      field, since the first output name is not among the others. */
  lemma ScoredCons(doc: map<string, Json>, fields: seq<Field>, v: int, m: map<string, Json>)
    requires fields != [] && DistinctOutputs(fields) && AllScored(doc, fields)
    requires Score(doc, fields[0]) == Ok(v)
    requires forall i :: 0 <= i < |fields[1..]| ==>
      && Score(doc, fields[1..][i]).Ok?
      && fields[1..][i].output in m
      && m[fields[1..][i].output] == Int(Score(doc, fields[1..][i]).value)
    ensures forall i :: 0 <= i < |fields| ==>
      && Score(doc, fields[i]).Ok?
      && fields[i].output in m[fields[0].output := Int(v)]
      && m[fields[0].output := Int(v)][fields[i].output] == Int(Score(doc, fields[i]).value)
  {
    forall i | 0 <= i < |fields|
      ensures Score(doc, fields[i]).Ok? && fields[i].output in m[fields[0].output := Int(v)]
      ensures m[fields[0].output := Int(v)][fields[i].output] == Int(Score(doc, fields[i]).value)
    {
      if i > 0 {
        assert fields[1..][i - 1] == fields[i];
        assert fields[i].output != fields[0].output;
      }
    }
  }

  /** The `skin_age` entry: unclamped, the `ui_score` of a dict (`None` when
      it has none), otherwise the raw value (`None` when absent). */
  function SkinAge(doc: map<string, Json>): (r: Json)
    ensures SkinAgeKey !in doc ==> r == Null
    ensures SkinAgeKey in doc && !doc[SkinAgeKey].Obj? ==> r == doc[SkinAgeKey]
    ensures SkinAgeKey in doc && doc[SkinAgeKey].Obj? ==>
      r == Get(doc[SkinAgeKey].fields, "ui_score", Null)
  {
    match Get(doc, SkinAgeKey, Null)
    case Obj(m) => Get(m, "ui_score", Null)
    case v => v
  }

  lemma FieldsDistinct()
    ensures DistinctOutputs(Fields)
  {
    // The names already differ in their length or their first two letters.
    var tags := seq(|Fields|, i requires 0 <= i < |Fields| => Tag(Fields[i].output));
    assert tags == [(5, 'r', 'u'), (4, 'p', 'o'), (7, 'm', 'a'), (8, 'o', 'c'), (14, 'd', 'i'), (4, 'a', 'c'),
                    (20, 'p', 'e'), (8, 'r', 'a'), (8, 'f', 'i'), (8, 'o', 'i'), (7, 't', 'e'), (7, 'r', 'e')];
    forall i, j | 0 <= i < j < |Fields|
      ensures Fields[i].output != Fields[j].output
    {
      assert tags[i] != tags[j];
    }
  }

  /** The length and first two letters of a name of at least two letters. */
  function Tag(s: string): (int, char, char)
  {
    if |s| < 2 then (|s|, ' ', ' ') else (|s|, s[0], s[1])
  }

  lemma FieldsOutputs()
    ensures Outputs(Fields) == ScoreKeys
    ensures SkinAgeKey !in ScoreKeys
  {
    assert forall i :: 0 <= i < |Fields| ==> Fields[i].output in ScoreKeys;
    assert Fields[0].output in Outputs(Fields);
    assert Fields[1].output in Outputs(Fields);
    assert Fields[2].output in Outputs(Fields);
    assert Fields[3].output in Outputs(Fields);
    assert Fields[4].output in Outputs(Fields);
    assert Fields[5].output in Outputs(Fields);
    assert Fields[6].output in Outputs(Fields);
    assert Fields[7].output in Outputs(Fields);
    assert Fields[8].output in Outputs(Fields);
    assert Fields[9].output in Outputs(Fields);
    assert Fields[10].output in Outputs(Fields);
    assert Fields[11].output in Outputs(Fields);
  }

  /** `map_scores_to_frontend(score_info)`. */
  function MapScores(doc: Json): (r: Result<map<string, Json>, ScoreError>)
    ensures r.Ok? <==> doc.Obj? && AllScored(doc.fields, Fields)
    ensures !doc.Obj? ==> r == Err(NotADict)
    ensures r.Ok? ==> r.value.Keys == OutputKeys
    ensures r.Ok? ==> forall i :: 0 <= i < |Fields| ==>
      r.value[Fields[i].output] == Int(Score(doc.fields, Fields[i]).value)
    ensures r.Ok? ==> r.value[SkinAgeKey] == SkinAge(doc.fields)
    ensures r.Err? && doc.Obj? ==> r.error.Conversion? && exists i ::
      FirstFailure(doc.fields, Fields, i) && Score(doc.fields, Fields[i]) == Err(r.error.error)
  {
    FieldsDistinct();
    FieldsOutputs();
    match doc
    case Obj(fs) => MapDocument(fs, Fields)
    case _ => Err(NotADict)
  }

  /** The dictionary literal of `map_scores_to_frontend`, for any list of
      bounded entries that does not reuse the `skin_age` name. */
  function MapDocument(doc: map<string, Json>, fields: seq<Field>): (r: Result<map<string, Json>, ScoreError>)
    requires DistinctOutputs(fields) && SkinAgeKey !in Outputs(fields)
    ensures r.Ok? <==> AllScored(doc, fields)
    ensures r.Ok? ==> r.value.Keys == Outputs(fields) + {SkinAgeKey}
    ensures r.Ok? ==> forall i :: 0 <= i < |fields| ==>
      r.value[fields[i].output] == Int(Score(doc, fields[i]).value)
    ensures r.Ok? ==> r.value[SkinAgeKey] == SkinAge(doc)
    ensures r.Err? ==> r.error.Conversion? && exists i ::
      FirstFailure(doc, fields, i) && Score(doc, fields[i]) == Err(r.error.error)
  {
    match MapFields(doc, fields)
    case Err(e) => Err(Conversion(e))
    case Ok(m) =>
      assert forall i :: 0 <= i < |fields| ==> fields[i].output in Outputs(fields);
      Ok(m[SkinAgeKey := SkinAge(doc)])
  }

  /** Every entry except `skin_age` is an integer in [0, 100], whatever the document. */
  lemma MapScoresBounded(doc: Json)
    ensures MapScores(doc).Ok? ==> forall k :: k in MapScores(doc).value && k != SkinAgeKey ==>
      MapScores(doc).value[k].Int? && 0 <= MapScores(doc).value[k].i <= 100
  {
    if MapScores(doc).Ok? {
      FieldsDistinct();
      FieldsOutputs();
      MapDocumentBounded(doc.fields, Fields);
    }
  }

  lemma MapDocumentBounded(doc: map<string, Json>, fields: seq<Field>)
    requires DistinctOutputs(fields) && SkinAgeKey !in Outputs(fields)
    requires MapDocument(doc, fields).Ok?
    ensures forall k :: k in MapDocument(doc, fields).value && k != SkinAgeKey ==>
      MapDocument(doc, fields).value[k].Int? && 0 <= MapDocument(doc, fields).value[k].i <= 100
  {
    var out := MapDocument(doc, fields).value;
    forall k | k in out && k != SkinAgeKey
      ensures out[k].Int? && 0 <= out[k].i <= 100
    {
      var i :| 0 <= i < |fields| && fields[i].output == k;
      assert out[k] == Int(Score(doc, fields[i]).value);
    }
  }

  /** A document none of whose values is a dict never makes the mapping raise. */
  lemma FlatDocumentMaps(doc: map<string, Json>)
    requires forall k :: k in doc ==> !doc[k].Obj?
    ensures MapScores(Obj(doc)).Ok?
  {
    forall i | 0 <= i < |Fields|
      ensures Score(doc, Fields[i]).Ok?
    {
    }
  }

  /** Every default is 50 except that of `pelle_pulita_percent`, which is
      read from key `all` and defaults to 80. */
  lemma FieldDefaults()
    ensures forall i :: 0 <= i < |Fields| ==>
      Fields[i].default == if Fields[i].output == "pelle_pulita_percent" then 80 else 50
    ensures forall i :: 0 <= i < |Fields| && Fields[i].output == "pelle_pulita_percent" ==>
      Fields[i].source == "all"
  {
  }

  /** A document holding none of the keys the mapping reads (an empty one, for
      instance) maps every score to its default and `skin_age` to `None`. */
  lemma MapScoresDefaults(doc: map<string, Json>)
    requires forall i :: 0 <= i < |Fields| ==> Fields[i].source !in doc
    requires SkinAgeKey !in doc
    ensures MapScores(Obj(doc)).Ok?
    ensures forall i :: 0 <= i < |Fields| ==>
      MapScores(Obj(doc)).value[Fields[i].output] == Int(Fields[i].default)
    ensures MapScores(Obj(doc)).value[SkinAgeKey] == Null
  {
    assert forall i :: 0 <= i < |Fields| ==> Score(doc, Fields[i]) == Ok(Fields[i].default) by {
      forall i | 0 <= i < |Fields|
        ensures Score(doc, Fields[i]) == Ok(Fields[i].default)
      {
        GetScoreDefault(doc, Fields[i].source, Fields[i].default);
      }
    }
  }
}
