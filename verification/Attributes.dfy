/** internal/catalog/validator.go: checking and normalizing dynamic attributes. */
module Attributes {
  import opened Wrappers
  import opened Sorting

  datatype Float = Finite(x: real) | NaN | Infinite(positive: bool)

  /** A Go `any` as the validator may meet it: what a JSON decoder yields (with or without
      json.Number), Go integers, and the []string of a value already normalized. */
  datatype Value =
    | Nil
    | Text(s: string)
    | Number(f: Float)
    | Literal(text: string)
    | Whole(n: int)
    | Flag(b: bool)
    | List(items: seq<Value>)
    | Strings(choices: seq<string>)
    | Object

  datatype DataType = TypeText | TypeNumber | TypeBool | TypeEnum | TypeMultiEnum | Unsupported(name: string)

  datatype Attribute = Attribute(key: string, dataType: DataType, options: seq<string>, required: bool)

  datatype Problem =
    | UnknownKey | IsRequired | MustBeText | MustBeFinite | MustBeNumber | MustBeBool
    | MustBeOneOf(options: seq<string>) | MustBeListOf(options: seq<string>)
    | MustNotRepeat | UnsupportedType(name: string)

  /** Library conversions: json.Number to float64, which may fail and, for the texts "NaN" and
      "Inf", need not be finite; and integers to float64, which rounds. */
  datatype Conversions = Conversions(parse: string -> Option<Float>, ofInt: int -> real)

  // --- strings.TrimSpace ---------------------------------------------------------------

  predicate IsSpace(c: char) {
    || '\t' <= c <= '\r' || c == ' ' || c == '\U{0085}' || c == '\U{00A0}' || c == '\U{1680}'
    || '\U{2000}' <= c <= '\U{200A}' || c == '\U{2028}' || c == '\U{2029}' || c == '\U{202F}'
    || c == '\U{205F}' || c == '\U{3000}'
  }

  function TrimLeft(s: string): (r: string)
    ensures r != [] ==> !IsSpace(r[0])
    ensures s != [] && !IsSpace(s[0]) ==> r == s
  {
    if s != [] && IsSpace(s[0]) then TrimLeft(s[1..]) else s
  }

  function TrimRight(s: string): (r: string)
    ensures r <= s
    ensures r != [] ==> !IsSpace(r[|r| - 1])
    ensures s != [] && !IsSpace(s[|s| - 1]) ==> r == s
  {
    if s != [] && IsSpace(s[|s| - 1]) then TrimRight(s[..|s| - 1]) else s
  }

  function TrimSpace(s: string): string {
    TrimRight(TrimLeft(s))
  }

  /** s[i..j] is what is left when the spaces at both ends are taken away, and no more. */
  ghost predicate Trimmed(s: string, i: int, j: int) {
    && 0 <= i <= j <= |s|
    && (forall k | 0 <= k < i || j <= k < |s| :: IsSpace(s[k]))
    && (i < j ==> !IsSpace(s[i]) && !IsSpace(s[j - 1]))
  }

  lemma {:induction false} TrimLeftMeans(s: string) returns (i: nat)
    ensures i <= |s| && TrimLeft(s) == s[i..] && forall k | 0 <= k < i :: IsSpace(s[k])
  {
    if s != [] && IsSpace(s[0]) {
      var i' := TrimLeftMeans(s[1..]);
      i := i' + 1;
      forall k | 0 <= k < i ensures IsSpace(s[k]) {
        if k > 0 { assert s[k] == s[1..][k - 1]; }
      }
    } else {
      i := 0;
    }
  }

  lemma {:induction false} TrimRightMeans(s: string) returns (j: nat)
    ensures j <= |s| && TrimRight(s) == s[..j] && forall k | j <= k < |s| :: IsSpace(s[k])
  {
    if s != [] && IsSpace(s[|s| - 1]) {
      j := TrimRightMeans(s[..|s| - 1]);
    } else {
      j := |s|;
    }
  }

  /** Trimming takes away the spaces at both ends and keeps everything between. */
  lemma TrimKeepsTheRest(s: string)
    ensures exists i, j :: Trimmed(s, i, j) && TrimSpace(s) == s[i..j]
  {
    var i := TrimLeftMeans(s);
    var j := TrimRightMeans(s[i..]);
    assert s[i..][..j] == s[i..i + j];
    forall k | i + j <= k < |s| ensures IsSpace(s[k]) { assert s[k] == s[i..][k - i]; }
    assert Trimmed(s, i, i + j);
  }

  lemma TrimTwice(s: string)
    ensures TrimSpace(TrimSpace(s)) == TrimSpace(s)
  {
    var t := TrimLeft(s);
    var r := TrimRight(t);
    if r != [] { assert r[0] == t[0]; }
  }

  // --- coerce, as a specification ------------------------------------------------------

  predicate GoodChoice(def: Attribute, item: Value) {
    item.Text? && item.s in def.options
  }

  /** The texts of a list of texts. */
  function Texts(items: seq<Value>): (r: seq<string>)
    requires forall i | 0 <= i < |items| :: items[i].Text?
    ensures |r| == |items| && forall i | 0 <= i < |items| :: r[i] == items[i].s
  {
    if items == [] then [] else Texts(items[..|items| - 1]) + [items[|items| - 1].s]
  }

  ghost predicate GoodList(def: Attribute, items: seq<Value>) {
    && (forall i | 0 <= i < |items| :: GoodChoice(def, items[i]))
    && (forall i, j | 0 <= i < j < |items| :: items[i] != items[j])
  }

  function NumberOf(conv: Conversions, raw: Value): Result<Float, Problem> {
    match raw
    case Number(f) => if f.Finite? then Success(f) else Failure(MustBeFinite)
    case Literal(text) => if conv.parse(text).Some? then Success(conv.parse(text).value) else Failure(MustBeNumber)
    case Whole(n) => Success(Finite(conv.ofInt(n)))
    case _ => Failure(MustBeNumber)
  }

  ghost function CanonicalList(def: Attribute, items: seq<Value>): Option<Value> {
    if GoodList(def, items) && (def.required ==> items != []) then Some(Strings(Sort(LexLess, Texts(items)))) else None
  }

  /** The form to store, if the value is acceptable. */
  ghost function Canonical(conv: Conversions, def: Attribute, raw: Value): Option<Value> {
    match def.dataType
    case TypeText =>
      if raw.Text? && (def.required ==> TrimSpace(raw.s) != "") then Some(Text(TrimSpace(raw.s))) else None
    case TypeNumber =>
      var n := NumberOf(conv, raw);
      if n.Success? then Some(Number(n.value)) else None
    case TypeBool => if raw.Flag? then Some(raw) else None
    case TypeEnum => if GoodChoice(def, raw) then Some(raw) else None
    case TypeMultiEnum =>
      if raw.List? then CanonicalList(def, raw.items) else None
    case Unsupported(_) => None
  }

  /** What the error of a rejected value may be: it names the first thing wrong. */
  ghost predicate Explains(conv: Conversions, def: Attribute, raw: Value, p: Problem) {
    match def.dataType
    case TypeText => p == if raw.Text? then IsRequired else MustBeText
    case TypeNumber => NumberOf(conv, raw) == Failure(p)
    case TypeBool => p == MustBeBool
    case TypeEnum => p == MustBeOneOf(def.options)
    case TypeMultiEnum =>
      if !raw.List? then p == MustBeListOf(def.options)
      else if GoodList(def, raw.items) then p == IsRequired
      else exists i :: 0 <= i < |raw.items| && GoodList(def, raw.items[..i]) &&
             p == if GoodChoice(def, raw.items[i]) then MustNotRepeat else MustBeListOf(def.options)
    case Unsupported(name) => p == UnsupportedType(name)
  }

  // --- the code ------------------------------------------------------------------------

  method ToNumber(conv: Conversions, raw: Value) returns (r: Result<Float, Problem>)
    ensures r == NumberOf(conv, raw)
  {
    match raw
    case Number(f) =>
      if f.NaN? || f.Infinite? {
        return Failure(MustBeFinite);
      }
      return Success(f);
    case Literal(text) =>
      var parsed := conv.parse(text);
      if parsed.None? {
        return Failure(MustBeNumber);
      }
      return Success(parsed.value);
    case Whole(n) => return Success(Finite(conv.ofInt(n)));
    case _ => return Failure(MustBeNumber);
  }

  method Contains(options: seq<string>, value: string) returns (found: bool)
    ensures found <==> value in options
  {
    for i := 0 to |options|
      invariant value !in options[..i]
    {
      if options[i] == value {
        return true;
      }
    }
    return false;
  }

  method CoerceList(def: Attribute, items: seq<Value>) returns (r: Result<seq<string>, Problem>)
    ensures r.Success? <==> GoodList(def, items)
    ensures r.Success? ==> r.value == Texts(items)
    ensures r.Failure? ==> exists i :: 0 <= i < |items| && GoodList(def, items[..i]) &&
                             r.error == if GoodChoice(def, items[i]) then MustNotRepeat else MustBeListOf(def.options)
  {
    var seen: set<string> := {};
    var choices: seq<string> := [];
    for i := 0 to |items|
      invariant GoodList(def, items[..i])
      invariant choices == Texts(items[..i])
      invariant forall c :: c in seen <==> c in choices
    {
      assert items[..i + 1][..i] == items[..i];
      var item := items[i];
      var known := false;
      if item.Text? {
        known := Contains(def.options, item.s);
      }
      if !known {
        return Failure(MustBeListOf(def.options));
      }
      if item.s in seen {
        var j :| 0 <= j < |choices| && choices[j] == item.s;
        assert items[..i][j] == items[i];
        return Failure(MustNotRepeat);
      }
      seen, choices := seen + {item.s}, choices + [item.s];
    }
    assert items[..|items|] == items;
    return Success(choices);
  }

  method Coerce(conv: Conversions, def: Attribute, raw: Value) returns (r: Result<Value, Problem>)
    ensures r.Success? <==> Canonical(conv, def, raw).Some?
    ensures r.Success? ==> Some(r.value) == Canonical(conv, def, raw)
    ensures r.Failure? ==> Explains(conv, def, raw, r.error)
  {
    match def.dataType
    case TypeText =>
      if !raw.Text? {
        return Failure(MustBeText);
      }
      var text := TrimSpace(raw.s);
      if text == "" && def.required {
        return Failure(IsRequired);
      }
      return Success(Text(text));
    case TypeNumber =>
      var number := ToNumber(conv, raw);
      if number.Failure? {
        return Failure(number.error);
      }
      return Success(Number(number.value));
    case TypeBool =>
      if !raw.Flag? {
        return Failure(MustBeBool);
      }
      return Success(raw);
    case TypeEnum =>
      if !raw.Text? {
        return Failure(MustBeOneOf(def.options));
      }
      var known := Contains(def.options, raw.s);
      if !known {
        return Failure(MustBeOneOf(def.options));
      }
      return Success(raw);
    case TypeMultiEnum =>
      if !raw.List? {
        return Failure(MustBeListOf(def.options));
      }
      var choices := CoerceList(def, raw.items);
      if choices.Failure? {
        return Failure(choices.error);
      }
      if |choices.value| == 0 && def.required {
        return Failure(IsRequired);
      }
      return Success(Strings(Sort(LexLess, choices.value)));
    case Unsupported(name) =>
      return Failure(UnsupportedType(name));
  }

  // --- ValidateAttributes --------------------------------------------------------------

  predicate Absent(values: map<string, Value>, key: string) {
    key !in values || values[key].Nil?
  }

  ghost predicate DefOk(conv: Conversions, def: Attribute, values: map<string, Value>) {
    if Absent(values, def.key) then !def.required else Canonical(conv, def, values[def.key]).Some?
  }

  predicate Known(defs: seq<Attribute>, key: string) {
    exists i :: 0 <= i < |defs| && defs[i].key == key
  }

  ghost predicate Offending(conv: Conversions, defs: seq<Attribute>, values: map<string, Value>, key: string) {
    || (key in values && !Known(defs, key))
    || FailsADef(conv, defs, values, key)
  }

  ghost predicate FailsADef(conv: Conversions, defs: seq<Attribute>, values: map<string, Value>, key: string) {
    exists i :: 0 <= i < |defs| && defs[i].key == key && !DefOk(conv, defs[i], values)
  }

  /** What is stored: each present value in canonical form. */
  ghost function Normalized(conv: Conversions, defs: seq<Attribute>, values: map<string, Value>): map<string, Value> {
    if defs == [] then map[]
    else
      var init, last := Normalized(conv, defs[..|defs| - 1], values), defs[|defs| - 1];
      if !Absent(values, last.key) && Canonical(conv, last, values[last.key]).Some?
      then init[last.key := Canonical(conv, last, values[last.key]).value]
      else init
  }

  method IndexDefs(defs: seq<Attribute>) returns (byKey: map<string, Attribute>)
    ensures forall key :: key in byKey <==> Known(defs, key)
  {
    byKey := map[];
    for i := 0 to |defs|
      invariant forall key :: key in byKey <==> exists j :: 0 <= j < i && defs[j].key == key
    {
      byKey := byKey[defs[i].key := defs[i]];
    }
  }

  // `for key := range values`, in any order
  method RejectUnknown(values: map<string, Value>, byKey: map<string, Attribute>)
    returns (problems: map<string, Problem>)
    ensures forall key :: key in problems <==> key in values && key !in byKey
    ensures forall key | key in problems :: problems[key] == UnknownKey
  {
    problems := map[];
    var pending := values.Keys;
    while pending != {}
      invariant pending <= values.Keys
      invariant forall key :: key in problems <==> key in values && key !in pending && key !in byKey
      invariant forall key | key in problems :: problems[key] == UnknownKey
      decreases pending
    {
      var key := Pick(pending);
      if key !in byKey {
        problems := problems[key := UnknownKey];
      }
      pending := pending - {key};
    }
  }

  /** Why a definition is not met. */
  ghost predicate Blames(conv: Conversions, def: Attribute, values: map<string, Value>, p: Problem) {
    if Absent(values, def.key) then def.required && p == IsRequired
    else Canonical(conv, def, values[def.key]).None? && Explains(conv, def, values[def.key], p)
  }

  ghost predicate Justified(conv: Conversions, defs: seq<Attribute>, values: map<string, Value>, key: string,
                            p: Problem) {
    if !Known(defs, key) then p == UnknownKey
    else exists i :: 0 <= i < |defs| && defs[i].key == key && Blames(conv, defs[i], values, p)
  }

  /** One turn of the loop over the definitions. */
  method CheckDef(conv: Conversions, def: Attribute, values: map<string, Value>,
                  problems0: map<string, Problem>, normalized0: map<string, Value>)
    returns (problems: map<string, Problem>, normalized: map<string, Value>)
    ensures problems.Keys == problems0.Keys + (if DefOk(conv, def, values) then {} else {def.key})
    ensures forall key | key in problems && key != def.key :: problems[key] == problems0[key]
    ensures def.key in problems && DefOk(conv, def, values) ==> problems[def.key] == problems0[def.key]
    ensures !DefOk(conv, def, values) ==> Blames(conv, def, values, problems[def.key])
    ensures normalized == if !Absent(values, def.key) && Canonical(conv, def, values[def.key]).Some?
                          then normalized0[def.key := Canonical(conv, def, values[def.key]).value] else normalized0
  {
    problems, normalized := problems0, normalized0;
    if def.key !in values || values[def.key].Nil? {
      if def.required {
        problems := problems[def.key := IsRequired];
      }
      return;
    }
    var value := Coerce(conv, def, values[def.key]);
    if value.Failure? {
      problems := problems[def.key := value.error];
      return;
    }
    normalized := normalized[def.key := value.value];
  }

  /** The keys with a problem once the first n definitions have been looked at. */
  ghost predicate ProblemsAfter(conv: Conversions, defs: seq<Attribute>, values: map<string, Value>, n: nat,
                                keys: set<string>)
    requires n <= |defs|
  {
    forall key :: key in keys <==> (key in values && !Known(defs, key)) || FailsADef(conv, defs[..n], values, key)
  }

  /** A value that is missing or null is not required, and any other can be stored. */
  ghost predicate IsMet(conv: Conversions, def: Attribute, values: map<string, Value>) {
    if def.key in values && values[def.key] != Nil then Canonical(conv, def, values[def.key]).Some? else !def.required
  }

  lemma NoneOffends(conv: Conversions, defs: seq<Attribute>, values: map<string, Value>)
    ensures (forall key :: !Offending(conv, defs, values, key)) <==>
            ((forall key | key in values :: exists i :: 0 <= i < |defs| && defs[i].key == key)
             && (forall i | 0 <= i < |defs| :: IsMet(conv, defs[i], values)))
  {
    forall i | 0 <= i < |defs| ensures IsMet(conv, defs[i], values) <==> DefOk(conv, defs[i], values) {
    }
    if forall key :: !Offending(conv, defs, values, key) {
      forall i | 0 <= i < |defs| ensures IsMet(conv, defs[i], values) {
        assert !Offending(conv, defs, values, defs[i].key);
      }
      forall key | key in values ensures exists i :: 0 <= i < |defs| && defs[i].key == key {
        assert !Offending(conv, defs, values, key);
      }
    }
  }

  /** Collects every problem; succeeds exactly when there is none. */
  method ValidateAttributes(conv: Conversions, defs: seq<Attribute>, values: map<string, Value>)
    returns (r: Result<map<string, Value>, map<string, Problem>>)
    ensures r.Success? <==> forall key :: !Offending(conv, defs, values, key)
    // in plain terms: every key is defined, every definition is met
    ensures r.Success? <==>
            (forall key | key in values :: exists i :: 0 <= i < |defs| && defs[i].key == key)
            && (forall i | 0 <= i < |defs| :: IsMet(conv, defs[i], values))
    ensures r.Success? ==> r.value == Normalized(conv, defs, values)
    ensures r.Failure? ==> forall key :: key in r.error <==> Offending(conv, defs, values, key)
    ensures r.Failure? ==> forall key | key in r.error :: Justified(conv, defs, values, key, r.error[key])
  {
    var byKey := IndexDefs(defs);
    var problems := RejectUnknown(values, byKey);
    var normalized: map<string, Value> := map[];
    for i := 0 to |defs|
      invariant normalized == Normalized(conv, defs[..i], values)
      invariant ProblemsAfter(conv, defs, values, i, problems.Keys)
      invariant forall key | key in problems :: Justified(conv, defs, values, key, problems[key])
    {
      FailsOneMore(conv, defs, values, i);
      assert defs[..i + 1][..i] == defs[..i];
      problems, normalized := CheckDef(conv, defs[i], values, problems, normalized);
    }
    assert defs[..|defs|] == defs;
    assert forall key :: key in problems.Keys <==> Offending(conv, defs, values, key);
    NoneOffends(conv, defs, values);
    if problems.Keys != {} {
      assert exists key :: key in problems.Keys;
      return Failure(problems);
    }
    return Success(normalized);
  }

  lemma FailsOneMore(conv: Conversions, defs: seq<Attribute>, values: map<string, Value>, i: nat)
    requires i < |defs|
    ensures forall key :: FailsADef(conv, defs[..i + 1], values, key) <==>
              FailsADef(conv, defs[..i], values, key) || (defs[i].key == key && !DefOk(conv, defs[i], values))
  {
    forall key ensures FailsADef(conv, defs[..i + 1], values, key) <==>
              FailsADef(conv, defs[..i], values, key) || (defs[i].key == key && !DefOk(conv, defs[i], values))
    {
      if FailsADef(conv, defs[..i], values, key) {
        var j :| 0 <= j < |defs[..i]| && defs[..i][j].key == key && !DefOk(conv, defs[..i][j], values);
        assert defs[..i + 1][j] == defs[..i][j];
      }
      if defs[i].key == key && !DefOk(conv, defs[i], values) {
        assert defs[..i + 1][i] == defs[i];
      }
      if FailsADef(conv, defs[..i + 1], values, key) {
        var j :| 0 <= j < |defs[..i + 1]| && defs[..i + 1][j].key == key && !DefOk(conv, defs[..i + 1][j], values);
        if j < i { assert defs[..i][j] == defs[..i + 1][j]; }
      }
    }
  }

  // --- the stored form is a fixpoint ------------------------------------------------------

  ghost predicate UniqueKeys(defs: seq<Attribute>) {
    forall i, j | 0 <= i < j < |defs| :: defs[i].key != defs[j].key
  }

  function AsList(choices: seq<string>): (r: seq<Value>)
    ensures |r| == |choices| && forall i | 0 <= i < |r| :: r[i] == Text(choices[i])
  {
    if choices == [] then [] else AsList(choices[..|choices| - 1]) + [Text(choices[|choices| - 1])]
  }

  /** A stored value written as JSON and read back; None where encoding/json refuses. */
  function RoundTrip(v: Value): Option<Value> {
    match v
    case Text(_) => Some(v)
    case Flag(_) => Some(v)
    case Number(f) => if f.Finite? then Some(v) else None
    case Strings(choices) => Some(List(AsList(choices)))
    case _ => None
  }

  lemma TextsOfList(choices: seq<string>)
    ensures Texts(AsList(choices)) == choices
  {
  }

  lemma SortedAgain(choices: seq<string>)
    ensures Sort(LexLess, Sort(LexLess, choices)) == Sort(LexLess, choices)
  {
    LexIsStrictWeak();
    SortOrdered(LexLess, choices);
    SortOfOrdered(Sort(LexLess, choices));
  }

  lemma {:induction false} SortOfOrdered(s: seq<string>)
    requires Ordered(LexLess, s)
    ensures Sort(LexLess, s) == s
  {
    if s != [] {
      SortOfOrdered(s[1..]);
      assert s == [s[0]] + s[1..];
      if |s| > 1 { assert !LexLess(s[1], s[0]); }
    }
  }

  lemma ListAgain(def: Attribute, items: seq<Value>, v: Value)
    requires CanonicalList(def, items) == Some(v)
    ensures v.Strings? && CanonicalList(def, AsList(v.choices)) == Some(v)
  {
    GoodListAgain(def, items, v.choices);
    TextsOfList(v.choices);
    SortedAgain(Texts(items));
  }

  /** v is stored as itself after a JSON round trip, if it can make one. */
  ghost predicate Again(conv: Conversions, def: Attribute, v: Value) {
    RoundTrip(v).Some? ==> !RoundTrip(v).value.Nil? && Canonical(conv, def, RoundTrip(v).value) == Some(v)
  }

  lemma TextAgain(conv: Conversions, def: Attribute, raw: Value, v: Value)
    requires def.dataType.TypeText? && Canonical(conv, def, raw) == Some(v)
    ensures Again(conv, def, v)
  {
    TrimTwice(raw.s);
  }

  lemma PlainAgain(conv: Conversions, def: Attribute, raw: Value, v: Value)
    requires def.dataType.TypeNumber? || def.dataType.TypeBool? || def.dataType.TypeEnum?
    requires Canonical(conv, def, raw) == Some(v)
    ensures Again(conv, def, v)
  {
  }

  lemma MultiMeans(conv: Conversions, def: Attribute, items: seq<Value>)
    requires def.dataType.TypeMultiEnum?
    ensures Canonical(conv, def, List(items)) == CanonicalList(def, items)
  {
  }

  lemma MultiIsList(conv: Conversions, def: Attribute, raw: Value)
    requires def.dataType.TypeMultiEnum? && Canonical(conv, def, raw).Some?
    ensures raw.List?
  {
  }

  lemma CanonicalListAgain(conv: Conversions, def: Attribute, items: seq<Value>, v: Value)
    requires def.dataType.TypeMultiEnum? && Canonical(conv, def, List(items)) == Some(v)
    ensures v.Strings? && Canonical(conv, def, List(AsList(v.choices))) == Some(v)
  {
    MultiMeans(conv, def, items);
    ListAgain(def, items, v);
    MultiMeans(conv, def, AsList(v.choices));
  }

  lemma TripOfList(v: Value)
    requires v.Strings?
    ensures RoundTrip(v) == Some(List(AsList(v.choices)))
  {
  }

  lemma MultiAgain(conv: Conversions, def: Attribute, raw: Value, v: Value)
    requires def.dataType.TypeMultiEnum? && Canonical(conv, def, raw) == Some(v)
    ensures Again(conv, def, v)
  {
    MultiIsList(conv, def, raw);
    CanonicalListAgain(conv, def, raw.items, v);
    TripOfList(v);
  }

  /** Coercing a canonical value again, after a JSON round trip, changes nothing. */
  lemma CanonicalAgain(conv: Conversions, def: Attribute, raw: Value, v: Value)
    requires Canonical(conv, def, raw) == Some(v) && RoundTrip(v).Some?
    ensures Canonical(conv, def, RoundTrip(v).value) == Some(v)
    ensures !RoundTrip(v).value.Nil?
  {
    match def.dataType
    case TypeText => TextAgain(conv, def, raw, v);
    case TypeMultiEnum => MultiAgain(conv, def, raw, v);
    case Unsupported(_) =>
    case _ => PlainAgain(conv, def, raw, v);
  }

  lemma GoodListAgain(def: Attribute, items: seq<Value>, choices: seq<string>)
    requires GoodList(def, items) && choices == Sort(LexLess, Texts(items))
    ensures GoodList(def, AsList(choices)) && |choices| == |items|
  {
    var texts := Texts(items);
    SameMembers(texts, choices);
    DistinctTexts(def, items);
    PermutationKeepsDistinct(texts, choices);
    GoodListOf(def, choices);
  }

  lemma GoodListOf(def: Attribute, choices: seq<string>)
    requires NoDuplicates(choices) && forall c | c in choices :: c in def.options
    ensures GoodList(def, AsList(choices))
  {
    var list := AsList(choices);
    forall i | 0 <= i < |list| ensures GoodChoice(def, list[i]) {
      assert choices[i] in choices;
    }
    forall i, j | 0 <= i < j < |list| ensures list[i] != list[j] {
      assert choices[i] != choices[j];
    }
  }

  lemma DistinctTexts(def: Attribute, items: seq<Value>)
    requires GoodList(def, items)
    ensures NoDuplicates(Texts(items))
    ensures forall t | t in Texts(items) :: t in def.options
  {
    var texts := Texts(items);
    forall i, j | 0 <= i < j < |texts| ensures texts[i] != texts[j] { assert items[i] != items[j]; }
    forall t | t in texts ensures t in def.options {
      var k :| 0 <= k < |texts| && texts[k] == t;
      assert GoodChoice(def, items[k]);
    }
  }

  /** What is stored, type by type: a text without the spaces at its ends, a number, truth value or
      choice as it is, a list of choices in order. */
  lemma TextMeans(conv: Conversions, def: Attribute, raw: Value)
    requires def.dataType.TypeText?
    ensures Canonical(conv, def, raw).Some? <==>
            raw.Text? && (def.required ==> exists k :: 0 <= k < |raw.s| && !IsSpace(raw.s[k]))
    ensures Canonical(conv, def, raw).Some? ==>
              exists i, j :: Trimmed(raw.s, i, j) && Canonical(conv, def, raw) == Some(Text(raw.s[i..j]))
  {
    if raw.Text? {
      TrimKeepsTheRest(raw.s);
      var i, j :| Trimmed(raw.s, i, j) && TrimSpace(raw.s) == raw.s[i..j];
      if k :| 0 <= k < |raw.s| && !IsSpace(raw.s[k]) {
        assert i <= k < j;
      }
      assert TrimSpace(raw.s) != "" ==> !IsSpace(raw.s[i]);
    }
  }

  lemma PlainMeans(conv: Conversions, def: Attribute, raw: Value)
    requires def.dataType.TypeNumber? || def.dataType.TypeBool? || def.dataType.TypeEnum?
    ensures var stored := Canonical(conv, def, raw);
            && (def.dataType.TypeBool? ==> stored == if raw.Flag? then Some(raw) else None)
            && (def.dataType.TypeEnum? ==> stored == if raw.Text? && raw.s in def.options then Some(raw) else None)
            && (def.dataType.TypeNumber? && raw.Number? ==> stored == if raw.f.Finite? then Some(raw) else None)
            && (def.dataType.TypeNumber? && raw.Whole? ==> stored == Some(Number(Finite(conv.ofInt(raw.n)))))
            && (def.dataType.TypeNumber? && raw.Literal? ==>
                  stored == if conv.parse(raw.text).Some? then Some(Number(conv.parse(raw.text).value)) else None)
            && (def.dataType.TypeNumber? && !raw.Number? && !raw.Whole? && !raw.Literal? ==> stored == None)
  {
  }

  /** Item i of the list is the text c. */
  ghost predicate ItemIs(items: seq<Value>, i: int, c: string) {
    0 <= i < |items| && items[i] == Text(c)
  }

  lemma ListMeans(def: Attribute, items: seq<Value>)
    ensures CanonicalList(def, items).Some? <==>
            (forall i | 0 <= i < |items| :: items[i].Text? && items[i].s in def.options)
            && (forall i, j | 0 <= i < j < |items| :: items[i] != items[j])
            && (def.required ==> items != [])
    ensures CanonicalList(def, items).Some? ==>
              var stored := CanonicalList(def, items).value;
              && stored.Strings? && |stored.choices| == |items|
              && (forall i, j | 0 <= i < j < |stored.choices| :: LexLess(stored.choices[i], stored.choices[j]))
              && (forall c :: c in stored.choices <==> exists i :: ItemIs(items, i, c))
  {
    assert GoodList(def, items) <==>
           (forall i | 0 <= i < |items| :: items[i].Text? && items[i].s in def.options)
           && (forall i, j | 0 <= i < j < |items| :: items[i] != items[j]) by {
      assert forall i | 0 <= i < |items| :: GoodChoice(def, items[i]) <==> items[i].Text? && items[i].s in def.options;
    }
    if GoodList(def, items) { SortedChoices(def, items); }
  }

  lemma SortedChoices(def: Attribute, items: seq<Value>)
    requires GoodList(def, items)
    ensures var choices := Sort(LexLess, Texts(items));
            && |choices| == |items|
            && (forall i, j | 0 <= i < j < |choices| :: LexLess(choices[i], choices[j]))
            && (forall c :: c in choices <==> exists i :: ItemIs(items, i, c))
  {
    var texts := Texts(items);
    var choices := Sort(LexLess, texts);
    LexIsStrictWeak();
    SortOrdered(LexLess, texts);
    DistinctTexts(def, items);
    SameMembers(texts, choices);
    PermutationKeepsDistinct(texts, choices);
    OrderedDistinctStrings(choices);
    forall c ensures c in choices <==> exists i :: ItemIs(items, i, c) { TextIsItem(items, c); }
  }

  lemma TextIsItem(items: seq<Value>, c: string)
    requires forall i | 0 <= i < |items| :: items[i].Text?
    ensures c in Texts(items) <==> exists i :: ItemIs(items, i, c)
  {
    if c in Texts(items) {
      var i :| 0 <= i < |items| && Texts(items)[i] == c;
      assert ItemIs(items, i, c);
    }
    if i :| ItemIs(items, i, c) { assert Texts(items)[i] == c; }
  }

  /** A stored number is accepted again, unchanged, if and only if it is finite; and only a
      json.Number can spell one that is not. */
  lemma AcceptedNumberAgain(conv: Conversions, raw: Value, f: Float)
    requires NumberOf(conv, raw) == Success(f)
    ensures NumberOf(conv, Number(f)) == Success(f) <==> f.Finite?
    ensures !f.Finite? ==> raw.Literal?
  {
  }

  /** Without the round trip a normalized list is a []string, which the validator refuses. */
  lemma DirectRevalidation(conv: Conversions, def: Attribute, raw: Value, v: Value)
    requires Canonical(conv, def, raw) == Some(v) && RoundTrip(v).Some?
    ensures Canonical(conv, def, v) == Some(v) <==> !v.Strings?
  {
    if !v.Strings? { CanonicalAgain(conv, def, raw, v); }
  }

  /** For unique keys the stored map holds exactly the present keys, each in canonical form. */
  lemma {:induction false} NormalizedMeans(conv: Conversions, defs: seq<Attribute>, values: map<string, Value>, i: nat)
    requires UniqueKeys(defs) && i < |defs| && forall j | 0 <= j < |defs| :: DefOk(conv, defs[j], values)
    ensures var stored, def := Normalized(conv, defs, values), defs[i];
            if Absent(values, def.key) then def.key !in stored
            else def.key in stored && Some(stored[def.key]) == Canonical(conv, def, values[def.key])
  {
    var init, last := defs[..|defs| - 1], defs[|defs| - 1];
    NormalizedKeys(conv, init, values);
    if i < |init| {
      NormalizedMeans(conv, init, values, i);
      assert defs[i].key != last.key && init[i] == defs[i];
    } else {
      assert !Known(init, last.key) by {
        forall j | 0 <= j < |init| ensures init[j].key != last.key { assert defs[j].key != last.key; }
      }
    }
  }

  lemma {:induction false} NormalizedKeys(conv: Conversions, defs: seq<Attribute>, values: map<string, Value>)
    ensures forall key | key in Normalized(conv, defs, values) :: Known(defs, key) && !Absent(values, key)
  {
    if defs != [] {
      var init := defs[..|defs| - 1];
      NormalizedKeys(conv, init, values);
      forall key | Known(init, key) ensures Known(defs, key) {
        var j :| 0 <= j < |init| && init[j].key == key;
        assert defs[j] == init[j];
      }
      assert Known(defs, defs[|defs| - 1].key);
    }
  }

  /** The stored map survives a JSON round trip and re-validation unchanged, provided it can be
      written as JSON at all. */
  lemma StoredFormIsFixpoint(conv: Conversions, defs: seq<Attribute>, values: map<string, Value>,
                             decoded: map<string, Value>)
    requires UniqueKeys(defs) && forall key :: !Offending(conv, defs, values, key)
    requires var stored := Normalized(conv, defs, values);
             && decoded.Keys == stored.Keys
             && forall key | key in stored :: RoundTrip(stored[key]) == Some(decoded[key])
    ensures forall key :: !Offending(conv, defs, decoded, key)
    ensures Normalized(conv, defs, decoded) == Normalized(conv, defs, values)
  {
    var stored := Normalized(conv, defs, values);
    NormalizedKeys(conv, defs, values);
    forall i | 0 <= i < |defs| ensures DefOk(conv, defs[i], values) {
      assert !Offending(conv, defs, values, defs[i].key);
    }
    forall i | 0 <= i < |defs| ensures DefOk(conv, defs[i], decoded) && SameCanonical(conv, defs[i], values, decoded) {
      NormalizedMeans(conv, defs, values, i);
      if defs[i].key in stored {
        CanonicalAgain(conv, defs[i], values[defs[i].key], stored[defs[i].key]);
      }
    }
    forall key ensures !Offending(conv, defs, decoded, key) {
      assert key in decoded ==> key in stored;
    }
    NormalizedAgrees(conv, defs, values, decoded);
  }

  ghost predicate SameCanonical(conv: Conversions, def: Attribute, values: map<string, Value>,
                                decoded: map<string, Value>) {
    if Absent(values, def.key) then Absent(decoded, def.key)
    else !Absent(decoded, def.key) && Canonical(conv, def, decoded[def.key]) == Canonical(conv, def, values[def.key])
  }

  lemma {:induction false} NormalizedAgrees(conv: Conversions, defs: seq<Attribute>, values: map<string, Value>,
                                            decoded: map<string, Value>)
    requires forall i | 0 <= i < |defs| :: SameCanonical(conv, defs[i], values, decoded)
    ensures Normalized(conv, defs, decoded) == Normalized(conv, defs, values)
  {
    if defs != [] {
      NormalizedAgrees(conv, defs[..|defs| - 1], values, decoded);
      assert SameCanonical(conv, defs[|defs| - 1], values, decoded);
    }
  }

  /** Everything stored can be written as JSON unless a json.Number spelled a non-finite float. */
  lemma StoredValueEncodes(conv: Conversions, def: Attribute, raw: Value, v: Value)
    requires Canonical(conv, def, raw) == Some(v)
    ensures RoundTrip(v).None? <==>
            (def.dataType.TypeNumber? && raw.Literal? && conv.parse(raw.text).Some?
             && !conv.parse(raw.text).value.Finite?)
  {
  }
}
