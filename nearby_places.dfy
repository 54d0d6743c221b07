/**
 * `getNearbyPlaces`: the names of the places the provider lists around the
 * property, read from each feature's `properties.name`, with the falsy ones
 * dropped (`filter()`), repeats removed keeping the first (`unique()`) and
 * the result renumbered (`values()`), which makes it a plain list.
 */
module NearbyPlaces {
  import opened Wrappers
  import PhpValues
  import opened Provider
  import opened Collections

  /** Why `$feature['properties']['name']` raised for a feature. */
  datatype Unreadable = NoProperties | NullProperties | NoName

  /**
   * The ways the lookup fails; both reach the caller as exceptions: a
   * feature whose name cannot be read, or the transport exception.
   */
  datatype PlacesError = UnreadableFeature(position: nat, cause: Unreadable) | Transport(message: string)

  /** The exception's message: PHP 8's warning text, or the transport's own message. */
  function Message(e: PlacesError): string
  {
    match e
    case UnreadableFeature(_, NoProperties) => "Undefined array key \"properties\""
    case UnreadableFeature(_, NullProperties) => "Trying to access array offset on value of type null"
    case UnreadableFeature(_, NoName) => "Undefined array key \"name\""
    case Transport(m) => m
  }

  /**
   * Whether reading the name of `f` raises: an absent `properties`, a
   * `properties` that is null, or an object without `name`.  A `name` that
   * is null reads as null.
   */
  function NameFault(f: Feature): Option<Unreadable>
  {
    match f.properties
    case Missing => Some(NoProperties)
    case Null => Some(NullProperties)
    case Given(p) => if p.name.Missing? then Some(NoName) else None
  }

  /**
   * The name as `filter()` judges it.  A null name is falsy just as "" and
   * "0" are, so it is read as "" here; only names that are not
   * `EmptyString` survive either way.
   */
  function NameText(f: Feature): string
  {
    if f.properties.Given? && f.properties.value.name.Given? then f.properties.value.name.value else ""
  }

  /** `filter()` without a callback keeps the truthy strings. */
  predicate Truthy(s: string)
  {
    !PhpValues.EmptyString(s)
  }

  /**
   * `map` reads the features in order, so the first unreadable one raises;
   * `None` when every feature can be read.
   */
  function FirstFault(features: seq<Feature>): (r: Option<(nat, Unreadable)>)
    ensures r.None? <==> forall i :: 0 <= i < |features| ==> NameFault(features[i]).None?
    ensures r.Some? ==> r.value.0 < |features| && NameFault(features[r.value.0]) == Some(r.value.1)
    ensures r.Some? ==> forall i :: 0 <= i < r.value.0 ==> NameFault(features[i]).None?
  {
    if features == [] then None
    else if NameFault(features[0]).Some? then Some((0, NameFault(features[0]).value))
    else
      match FirstFault(features[1..])
      case None => None
      case Some((i, c)) => Some((i + 1, c))
  }

  /** The names a successful response yields once every feature could be read. */
  function PlaceNames(features: seq<Feature>): seq<string>
  {
    Unique(Filter(Map(features, NameText), Truthy))
  }

  /**
   * The whole lookup.  A response without a 2xx status gives no places; a
   * successful one gives the names, unless a feature's name cannot be read;
   * a transport failure is passed on.
   */
  function Lookup(reply: Reply<Field<seq<Feature>>>): Result<seq<string>, PlacesError>
  {
    match reply
    case Unreachable(message) => Failure(Transport(message))
    case Received(status, body) =>
      if !Successful(status) then Success([])
      else
        var features := FeatureList(body);
        match FirstFault(features)
        case Some((i, c)) => Failure(UnreadableFeature(i, c))
        case None => Success(PlaceNames(features))
  }

  // ---------------------------------------------------------------------------

  /**
   * The names: none empty, none twice, exactly the provider's non-empty
   * names, each taken at its first occurrence and in the provider's order,
   * and no more of them than features.
   */
  lemma PlaceNamesSpec(features: seq<Feature>) returns (idx: seq<nat>)
    ensures forall s :: s in PlaceNames(features) ==> Truthy(s)
    ensures NoDuplicates(PlaceNames(features))
    ensures forall s :: s in PlaceNames(features) <==> s in Map(features, NameText) && Truthy(s)
    ensures Embeds(PlaceNames(features), Map(features, NameText), idx)
    ensures forall k :: 0 <= k < |idx| ==> NameText(features[idx[k]]) !in Map(features, NameText)[..idx[k]]
    ensures |PlaceNames(features)| <= |features|
  {
    idx := FilterThenUnique(Map(features, NameText), Truthy);
  }

  /**
   * The places are exactly the non-empty names the features give: a null or
   * absent name never becomes a place, and every name that `filter()` keeps
   * is among them.
   */
  lemma PlacesAreGivenNames(features: seq<Feature>)
    ensures forall s :: s in PlaceNames(features) <==>
              Truthy(s) &&
              exists i :: 0 <= i < |features| && features[i].properties.Given? &&
                          features[i].properties.value.name == Given(s)
  {
    var _ := PlaceNamesSpec(features);
    var names := Map(features, NameText);
    forall s | s in PlaceNames(features)
      ensures exists i :: 0 <= i < |features| && features[i].properties.Given? &&
                          features[i].properties.value.name == Given(s)
    {
      var i :| 0 <= i < |names| && names[i] == s;
      assert NameText(features[i]) == s;
    }
    forall s, i | Truthy(s) && 0 <= i < |features| && features[i].properties.Given? &&
                  features[i].properties.value.name == Given(s)
      ensures s in PlaceNames(features)
    {
      assert names[i] == s;
    }
  }

  /** A feature whose name is null, "" or "0" contributes no place. */
  lemma FalsyNamesDropped(features: seq<Feature>, i: nat)
    requires i < |features| && features[i].properties.Given?
    requires features[i].properties.value.name.Null? ||
             features[i].properties.value.name == Given("") ||
             features[i].properties.value.name == Given("0")
    ensures forall s :: s in PlaceNames(features) ==> s != "" && s != "0"
    ensures !Truthy(NameText(features[i]))
  {
    var _ := PlaceNamesSpec(features);
  }

  /**
   * The outcomes of the lookup: transport failures propagate, a status
   * outside 2xx gives exactly no places, and a 2xx response fails exactly
   * when some feature's name cannot be read, at the first such feature.
   */
  lemma LookupOutcomes(reply: Reply<Field<seq<Feature>>>)
    ensures reply.Unreachable? ==> Lookup(reply) == Failure(Transport(reply.message))
    ensures reply.Received? && !Successful(reply.status) ==> Lookup(reply) == Success([])
    ensures reply.Received? && Successful(reply.status) ==>
              (Lookup(reply).Failure? <==>
               exists i :: 0 <= i < |FeatureList(reply.body)| && NameFault(FeatureList(reply.body)[i]).Some?)
    ensures Lookup(reply).Failure? && Lookup(reply).error.UnreadableFeature? ==>
              var p := Lookup(reply).error.position;
              reply.Received? && p < |FeatureList(reply.body)| &&
              NameFault(FeatureList(reply.body)[p]) == Some(Lookup(reply).error.cause) &&
              forall i :: 0 <= i < p ==> NameFault(FeatureList(reply.body)[i]).None?
  {
  }

  /**
   * The places the lookup returns, whatever the reply: no empty name, no
   * repeat, never more than the provider listed, and each one a name the
   * provider gave.
   */
  lemma LookupSpec(reply: Reply<Field<seq<Feature>>>)
    ensures Lookup(reply).Success? ==> forall s :: s in Lookup(reply).value ==> Truthy(s)
    ensures Lookup(reply).Success? ==> NoDuplicates(Lookup(reply).value)
    ensures Lookup(reply).Success? ==> reply.Received? && |Lookup(reply).value| <= |FeatureList(reply.body)|
    ensures Lookup(reply).Success? ==>
              forall s :: s in Lookup(reply).value ==> s in Map(FeatureList(reply.body), NameText)
  {
    if reply.Received? && Successful(reply.status) {
      var _ := PlaceNamesSpec(FeatureList(reply.body));
    }
  }

  /**
   * Three features name "Zilker Park", nothing and "Zilker Park" again, then
   * a fourth names "Austin Eats": the places are the two distinct names, in
   * that order.
   */
  lemma AustinPlaces()
    ensures Lookup(Received(200, Given([
              Feature(Given(Properties(Missing, Missing, Missing, Given("Zilker Park")))),
              Feature(Given(Properties(Missing, Missing, Missing, Null))),
              Feature(Given(Properties(Missing, Missing, Missing, Given("Zilker Park")))),
              Feature(Given(Properties(Missing, Missing, Missing, Given("Austin Eats"))))]))) ==
            Success(["Zilker Park", "Austin Eats"])
  {
    var z := Feature(Given(Properties(Missing, Missing, Missing, Given("Zilker Park"))));
    var n := Feature(Given(Properties(Missing, Missing, Missing, Null)));
    var a := Feature(Given(Properties(Missing, Missing, Missing, Given("Austin Eats"))));
    var features := [z, n, z, a];
    assert Map(features, NameText) == ["Zilker Park", "", "Zilker Park", "Austin Eats"];
    assert Filter(["Austin Eats"], Truthy) == ["Austin Eats"];
    assert Filter(["Zilker Park", "Austin Eats"], Truthy) == ["Zilker Park", "Austin Eats"];
    assert Filter(["", "Zilker Park", "Austin Eats"], Truthy) == ["Zilker Park", "Austin Eats"];
    assert Filter(Map(features, NameText), Truthy) == ["Zilker Park", "Zilker Park", "Austin Eats"];
    assert UniqueFrom(["Austin Eats"], {"Zilker Park"}) == ["Austin Eats"];
    assert UniqueFrom(["Zilker Park", "Austin Eats"], {"Zilker Park"}) == ["Austin Eats"];
    var kept := ["Zilker Park", "Zilker Park", "Austin Eats"];
    assert kept[1..] == ["Zilker Park", "Austin Eats"];
    assert {} + {kept[0]} == {"Zilker Park"};
    assert UniqueFrom(kept, {}) == [kept[0]] + UniqueFrom(kept[1..], {} + {kept[0]});
    assert PlaceNames(features) == ["Zilker Park", "Austin Eats"];
  }
}
