/**
 * The rule table `generate` hands to Laravel's validator before anything
 * else runs, one predicate per line: `LocationOk` wants a string,
 * `CoordinateOk` a number or numeric string for each coordinate, `CountOk`
 * an integer from `MinCount` to `MaxCount` for rooms and for washrooms,
 * `DescriptionOk` a string of at most `MaxDescription` characters, and
 * `PlatformOk` one of the three `Platforms`; every line also has `required`.
 */
module Validation {
  import opened Wrappers
  import opened PhpValues
  import Collections

  /** The request body: each field is absent (`None`) or a decoded JSON value. */
  datatype FormInput = FormInput(
    location: Option<Value>,
    latitude: Option<Value>,
    longitude: Option<Value>,
    rooms: Option<Value>,
    washrooms: Option<Value>,
    description: Option<Value>,
    platform: Option<Value>)

  /** The fields of the rule table, in its order. */
  datatype Field = Location | Latitude | Longitude | Rooms | Washrooms | Description | Platform
  {
    /** The request key, which is also the key of the field's messages. */
    function Key(): string
    {
      match this
      case Location => "location"
      case Latitude => "latitude"
      case Longitude => "longitude"
      case Rooms => "rooms"
      case Washrooms => "washrooms"
      case Description => "description"
      case Platform => "platform"
    }
  }

  /** The validator's verdict: the fields that failed, in rule-table order. */
  datatype ValidationResult = Passed | Failed(fields: seq<Field>)

  const RuleTable: seq<Field> := [Location, Latitude, Longitude, Rooms, Washrooms, Description, Platform]

  const Platforms: set<string> := {"Facebook", "Instagram", "Own Website"}
  const MinCount: int := 1
  const MaxCount: int := 10
  const MaxDescription: int := 500

  /**
   * `required`: present, not null, not a string that `trim` empties and not an
   * empty array.
   */
  predicate Required(f: Option<Value>)
  {
    f.Some? &&
    match f.value
    case Null => false
    case Str(s) => !Blank(s)
    case Arr(n) => n > 0
    case _ => true
  }

  /** `numeric`: PHP's `is_numeric()`. */
  predicate Numeric(v: Value)
  {
    match v
    case Int(_) => true
    case Float(_) => true
    case Str(s) => IsNumericString(s)
    case _ => false
  }

  /**
   * `integer`: `filter_var($v, FILTER_VALIDATE_INT)`, which reads a scalar
   * through its string form: `true` is "1", an integral float prints as an
   * integer, `false` and null print as "".
   */
  function IntegerValue(v: Value): (r: Option<int>)
    ensures r.Some? ==> PhpIntMin <= r.value <= PhpIntMax
  {
    match v
    case Int(i) => if PhpIntMin <= i <= PhpIntMax then Some(i) else None
    case Float(x) => if PlainIntegralFloat(x) then ParseInt(IntString(x.Floor)) else None
    case Bool(b) => if b then Some(1) else None
    case Str(s) => FilterInt(s)
    case _ => None
  }

  predicate LocationOk(f: Option<Value>)
  {
    Required(f) && f.value.Str?
  }

  predicate CoordinateOk(f: Option<Value>)
  {
    Required(f) && Numeric(f.value)
  }

  /**
   * `required|integer|between:1,10`.  Once `integer` holds, `between` measures
   * the integer itself: a string FILTER_VALIDATE_INT accepts is numeric
   * (`PhpValues.FilterIntIsNumeric`), an integer or a float is its own size,
   * and `true` has length 1 as the string "1".
   */
  predicate CountOk(f: Option<Value>)
  {
    Required(f) && IntegerValue(f.value).Some? &&
    MinCount <= IntegerValue(f.value).value <= MaxCount
  }

  /** `required|string|max:500`: a string's size is its number of characters. */
  predicate DescriptionOk(f: Option<Value>)
  {
    Required(f) && f.value.Str? && |f.value.s| <= MaxDescription
  }

  /** `required|in:...`: the exact platform name; anything else, arrays too, fails. */
  predicate PlatformOk(f: Option<Value>)
  {
    Required(f) && f.value.Str? && f.value.s in Platforms
  }

  /** The value the body holds for a field. */
  function Get(form: FormInput, field: Field): Option<Value>
  {
    match field
    case Location => form.location
    case Latitude => form.latitude
    case Longitude => form.longitude
    case Rooms => form.rooms
    case Washrooms => form.washrooms
    case Description => form.description
    case Platform => form.platform
  }

  /** Whether a field passes its line of the rule table. */
  predicate FieldOk(form: FormInput, field: Field)
  {
    var f := Get(form, field);
    match field
    case Location => LocationOk(f)
    case Latitude => CoordinateOk(f)
    case Longitude => CoordinateOk(f)
    case Rooms => CountOk(f)
    case Washrooms => CountOk(f)
    case Description => DescriptionOk(f)
    case Platform => PlatformOk(f)
  }

  /** The fields of `fields` that fail, in the order given. */
  function Failing(form: FormInput, fields: seq<Field>): seq<Field>
  {
    if fields == [] then []
    else (if FieldOk(form, fields[0]) then [] else [fields[0]]) + Failing(form, fields[1..])
  }

  lemma {:induction false} FailingSpec(form: FormInput, fields: seq<Field>)
    ensures forall f :: f in Failing(form, fields) <==> f in fields && !FieldOk(form, f)
  {
    if fields != [] {
      FailingSpec(form, fields[1..]);
    }
  }

  /**
   * The validator.  It passes exactly when every field passes its rules, and
   * otherwise names each failing field once, in rule-table order, and no other.
   */
  function Validate(form: FormInput): (r: ValidationResult)
    ensures r.Passed? <==> forall f: Field :: FieldOk(form, f)
    ensures r.Failed? ==> |r.fields| > 0
    ensures r.Failed? ==> forall f :: f in r.fields <==> !FieldOk(form, f)
    ensures r.Failed? ==> Collections.Embeds(r.fields, RuleTable, Collections.KeptPositions(RuleTable, f => !FieldOk(form, f)))
  {
    var failing := Failing(form, RuleTable);
    FailingRuleTable(form);
    if failing == [] then Passed else Failed(failing)
  }

  /** The failing fields of the rule table, read as a `filter` over it. */
  lemma FailingRuleTable(form: FormInput)
    ensures Failing(form, RuleTable) == [] <==> forall f: Field :: FieldOk(form, f)
    ensures forall f :: f in Failing(form, RuleTable) <==> !FieldOk(form, f)
    ensures Collections.Embeds(Failing(form, RuleTable), RuleTable,
                               Collections.KeptPositions(RuleTable, f => !FieldOk(form, f)))
  {
    FailingSpec(form, RuleTable);
    RuleTableComplete();
    FailingIsFilter(form, RuleTable);
    Collections.FilterAtKeptPositions(RuleTable, f => !FieldOk(form, f));
    if Failing(form, RuleTable) != [] {
      assert Failing(form, RuleTable)[0] in Failing(form, RuleTable);
    }
  }

  /** The rule table has a line for every field. */
  lemma RuleTableComplete()
    ensures forall f: Field :: f in RuleTable
  {
    forall f: Field ensures f in RuleTable {
      match f
      case Location => assert RuleTable[0] == f;
      case Latitude => assert RuleTable[1] == f;
      case Longitude => assert RuleTable[2] == f;
      case Rooms => assert RuleTable[3] == f;
      case Washrooms => assert RuleTable[4] == f;
      case Description => assert RuleTable[5] == f;
      case Platform => assert RuleTable[6] == f;
    }
  }

  lemma {:induction false} FailingIsFilter(form: FormInput, fields: seq<Field>)
    ensures Failing(form, fields) == Collections.Filter(fields, f => !FieldOk(form, f))
  {
    if fields != [] {
      FailingIsFilter(form, fields[1..]);
    }
  }

  /** The validator names `field` among the failing fields. */
  predicate Reports(form: FormInput, field: Field)
  {
    Validate(form).Failed? && field in Validate(form).fields
  }

  /**
   * Every field on its own can sink the request: a missing field, a count
   * outside 1..10 (0 or 11 rooms, -1 washrooms), a description over 500
   * characters, a platform that is not one of the three names.  By
   * `ReportsEveryFailure` each of these is named in the validator's verdict.
   */
  lemma Rejections(form: FormInput)
    ensures forall f: Field :: Get(form, f).None? ==> !FieldOk(form, f)
    ensures (form.rooms.Some? && IntegerValue(form.rooms.value).Some? &&
             !(MinCount <= IntegerValue(form.rooms.value).value <= MaxCount)) ==> !FieldOk(form, Rooms)
    ensures (form.washrooms.Some? && IntegerValue(form.washrooms.value).Some? &&
             !(MinCount <= IntegerValue(form.washrooms.value).value <= MaxCount)) ==> !FieldOk(form, Washrooms)
    ensures form.rooms == Some(Int(0)) || form.rooms == Some(Int(11)) ==> !FieldOk(form, Rooms)
    ensures form.washrooms == Some(Int(-1)) ==> !FieldOk(form, Washrooms)
    ensures form.description.Some? && form.description.value.Str? && |form.description.value.s| > MaxDescription ==>
              !FieldOk(form, Description)
    ensures form.platform.Some? && form.platform.value.Str? && form.platform.value.s !in Platforms ==>
              !FieldOk(form, Platform)
    ensures form.platform.Some? && !form.platform.value.Str? ==> !FieldOk(form, Platform)
  {
  }

  /** A field that fails its rules is always named in the verdict. */
  lemma ReportsEveryFailure(form: FormInput)
    ensures forall f: Field :: !FieldOk(form, f) <==> Reports(form, f)
  {
    forall f: Field | !FieldOk(form, f) ensures Reports(form, f) {
      assert !(forall g: Field :: FieldOk(form, g));
    }
  }

  /**
   * The browser form sends every field as a string, the counts as the option
   * values "1" to "10"; such a body passes whenever its location and
   * description are not blank, its coordinates are numeric, the description
   * fits 500 characters and the platform is one of the three offered.
   */
  lemma {:induction false} AcceptsBrowserForm(location: string, latitude: string, longitude: string,
                                               rooms: int, washrooms: int, description: string, platform: string)
    requires !Blank(location) && !Blank(description) && |description| <= MaxDescription
    requires IsNumericString(latitude) && IsNumericString(longitude)
    requires MinCount <= rooms <= MaxCount && MinCount <= washrooms <= MaxCount
    requires platform in Platforms
    ensures Validate(FormInput(Some(Str(location)), Some(Str(latitude)), Some(Str(longitude)),
                               Some(Str(IntString(rooms))), Some(Str(IntString(washrooms))),
                               Some(Str(description)), Some(Str(platform)))).Passed?
  {
    var form := FormInput(Some(Str(location)), Some(Str(latitude)), Some(Str(longitude)),
                          Some(Str(IntString(rooms))), Some(Str(IntString(washrooms))),
                          Some(Str(description)), Some(Str(platform)));
    NumericNotBlank(latitude);
    NumericNotBlank(longitude);
    CountStringOk(rooms);
    CountStringOk(washrooms);
    PlatformNotBlank(platform);
    forall f: Field ensures FieldOk(form, f) {
    }
  }

  /**
   * A JSON body with numbers for the coordinates and the counts passes
   * whenever its location and description are not blank, both counts are
   * in 1..10, the description fits 500 characters and the platform is one
   * of the three.
   */
  lemma {:induction false} AcceptsJsonForm(location: string, latitude: real, longitude: real,
                                            rooms: int, washrooms: int, description: string, platform: string)
    requires !Blank(location) && !Blank(description) && |description| <= MaxDescription
    requires MinCount <= rooms <= MaxCount && MinCount <= washrooms <= MaxCount
    requires platform in Platforms
    ensures Validate(FormInput(Some(Str(location)), Some(Float(latitude)), Some(Float(longitude)),
                               Some(Int(rooms)), Some(Int(washrooms)),
                               Some(Str(description)), Some(Str(platform)))).Passed?
  {
    var form := FormInput(Some(Str(location)), Some(Float(latitude)), Some(Float(longitude)),
                          Some(Int(rooms)), Some(Int(washrooms)),
                          Some(Str(description)), Some(Str(platform)));
    PlatformNotBlank(platform);
    forall f: Field ensures FieldOk(form, f) {
    }
  }

  /** The string a count option sends passes `required|integer|between:1,10`. */
  lemma CountStringOk(n: int)
    requires MinCount <= n <= MaxCount
    ensures CountOk(Some(Str(IntString(n))))
  {
    var s := IntString(n);
    FilterIntOfIntString(n);
    IntStringNotBlank(n);
    assert Required(Some(Str(s)));
    assert IntegerValue(Str(s)) == Some(n);
  }

  lemma PlatformNotBlank(platform: string)
    requires platform in Platforms
    ensures !Blank(platform)
  {
    assert platform[0] in {'F', 'I', 'O'};
  }

  lemma IntStringNotBlank(n: int)
    ensures !Blank(IntString(n))
  {
    IntStringEnds(n);
    assert IntString(n)[0] !in TrimChars;
  }

  /** A numeric string is never blank: its numeral starts with a sign, a digit or a point. */
  lemma NumericNotBlank(s: string)
    requires IsNumericString(s)
    ensures !Blank(s)
  {
    var l := DropLeading(s, NumericSpace);
    var t := DropTrailing(l, NumericSpace);
    NumericBodyStart(t);
    assert t[0] == s[|s| - |l|];
  }

  lemma NumericBodyStart(t: string)
    requires NumericBody(t)
    ensures t != [] && (t[0] in {'+', '-', '.'} || IsDigit(t[0]))
  {
    var u := Unsigned(t);
    var e := IndexOf(u, {'e', 'E'});
    var m := u[..e];
    var dot := IndexOf(m, {'.'});
    assert m != [];
    assert m[0] == '.' || IsDigit(m[0]) by {
      if dot > 0 {
        assert m[..dot][0] == m[0];
      }
    }
    assert u[0] == m[0];
  }

  /** A form that passed carries every field, and the three texts as strings. */
  lemma PassedFieldsPresent(form: FormInput)
    requires Validate(form).Passed?
    ensures form.location.Some? && form.location.value.Str?
    ensures form.latitude.Some? && form.longitude.Some?
    ensures form.rooms.Some? && form.washrooms.Some?
    ensures form.description.Some? && form.description.value.Str?
    ensures form.platform.Some? && form.platform.value.Str?
  {
    FieldPresent(form, Location);
    FieldPresent(form, Latitude);
    FieldPresent(form, Longitude);
    FieldPresent(form, Rooms);
    FieldPresent(form, Washrooms);
    FieldPresent(form, Description);
    FieldPresent(form, Platform);
  }

  /** A field that passes is present; location, description and platform are then strings. */
  lemma FieldPresent(form: FormInput, field: Field)
    requires FieldOk(form, field)
    ensures Get(form, field).Some?
    ensures field == Location || field == Description || field == Platform ==> Get(form, field).value.Str?
  {
  }

  lemma PassedCountsPrintable(form: FormInput)
    requires Validate(form).Passed?
    ensures form.rooms.Some? && form.washrooms.Some?
    ensures IntegerValue(form.rooms.value).Some? && IntegerValue(form.washrooms.value).Some?
    ensures Printable(form.rooms.value) && Printable(form.washrooms.value)
    ensures MinCount <= IntegerValue(form.rooms.value).value <= MaxCount
    ensures MinCount <= IntegerValue(form.washrooms.value).value <= MaxCount
  {
    assert FieldOk(form, Rooms) && FieldOk(form, Washrooms);
  }

  /**
   * The count the prompt shows is the count the validator read: the value
   * interpolated into the prompt reads back through FILTER_VALIDATE_INT as
   * the integer `between:1,10` was checked against.
   */
  lemma CountTextReadsBack(v: Value)
    requires CountOk(Some(v))
    ensures Printable(v)
    ensures FilterInt(Interpolate(v)) == IntegerValue(v)
  {
    match v
    case Int(i) => FilterIntOfIntString(i);
    case Float(x) =>
      var t := IntString(x.Floor);
      assert t[0] == '-' || IsDigit(t[0]);
      assert IsDigit(t[|t| - 1]);
      DropNothing(t, FilterSpace);
    case Bool(_) => FilterIntOfIntString(1);
    case Str(_) =>
  }

  /** A count that passed validation is printed as text that reads back as the count. */
  lemma PassedCountReadsBack(form: FormInput, field: Field)
    requires Validate(form).Passed? && (field == Rooms || field == Washrooms)
    ensures Get(form, field).Some? && Printable(Get(form, field).value)
    ensures FilterInt(Interpolate(Get(form, field).value)) == IntegerValue(Get(form, field).value)
    ensures IntegerValue(Get(form, field).value).Some?
    ensures MinCount <= IntegerValue(Get(form, field).value).value <= MaxCount
  {
    assert FieldOk(form, field);
    CountTextReadsBack(Get(form, field).value);
  }
}
