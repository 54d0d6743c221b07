/**
 * The suggestion list `autocomplete` builds from a Geoapify autocomplete
 * response: each feature becomes `{formatted, lat, lon}` with the defaults
 * '', 0 and 0, and entries whose `formatted` is empty are dropped.
 */
module Suggestions {
  import opened PhpValues
  import opened Provider
  import opened Collections

  datatype Suggestion = Suggestion(formatted: string, lat: real, lon: real)

  /** A suggestion under the key the collection gives it. */
  datatype Entry = Entry(key: nat, suggestion: Suggestion)

  /** The map step: missing members (the whole `properties` object too) take their defaults. */
  function ToSuggestion(f: Feature): Suggestion
  {
    match f.properties
    case Given(p) => Suggestion(OrDefault(p.formatted, ""), OrDefault(p.lat, 0.0), OrDefault(p.lon, 0.0))
    case _ => Suggestion("", 0.0, 0.0)
  }

  /** The filter step: `!empty($item['formatted'])`. */
  predicate Listed(s: Suggestion)
  {
    !EmptyString(s.formatted)
  }

  /** The suggestions kept, in the provider's order. */
  function Suggestions(features: seq<Feature>): seq<Suggestion>
  {
    Filter(Map(features, ToSuggestion), Listed)
  }

  /**
   * The array `autocomplete` returns as written: `filter` keeps each entry
   * under its original key and `toArray()` does not renumber them.  Each
   * entry is the mapped feature at its key, with a non-empty address; the
   * keys rise; and every feature with a non-empty address has its entry.
   */
  function EntriesAsWritten(features: seq<Feature>): (r: seq<Entry>)
    ensures |r| == |Suggestions(features)|
    ensures forall k :: 0 <= k < |r| ==>
              r[k].key < |features| && r[k].suggestion == ToSuggestion(features[r[k].key]) && Listed(r[k].suggestion)
    ensures forall j, k :: 0 <= j < k < |r| ==> r[j].key < r[k].key
    ensures forall i :: 0 <= i < |features| && Listed(ToSuggestion(features[i])) ==>
              exists k :: 0 <= k < |r| && r[k].key == i
  {
    var items := Map(features, ToSuggestion);
    FilterAtKeptPositions(items, Listed);
    var keys := KeptPositions(items, Listed);
    var kept := Suggestions(features);
    var r := seq(|kept|, k requires 0 <= k < |kept| => Entry(keys[k], kept[k]));
    assert forall i :: 0 <= i < |features| && Listed(ToSuggestion(features[i])) ==> i in keys by {
      assert forall i :: 0 <= i < |features| ==> items[i] == ToSuggestion(features[i]);
    }
    assert forall k :: 0 <= k < |r| ==> r[k].key == keys[k];
    r
  }

  /** The array with `values()` applied: the same suggestions under the keys 0, 1, 2, ... */
  function Entries(features: seq<Feature>): (r: seq<Entry>)
    ensures |r| == |EntriesAsWritten(features)|
    ensures forall k :: 0 <= k < |r| ==> r[k].key == k && r[k].suggestion == EntriesAsWritten(features)[k].suggestion
  {
    var kept := Suggestions(features);
    seq(|kept|, k requires 0 <= k < |kept| => Entry(k, kept[k]))
  }

  /** `json_encode` writes a PHP array as a JSON array only when its keys are 0, 1, 2, ... in order. */
  predicate EncodesAsList(entries: seq<Entry>)
  {
    forall k :: 0 <= k < |entries| ==> entries[k].key == k
  }

  /**
   * What the page's script shows: it tests `data.length > 0`, which is false
   * for a JSON object, so suggestions sent as an object are never shown.
   */
  function ShownByClient(entries: seq<Entry>): seq<string>
  {
    if EncodesAsList(entries) then seq(|entries|, k requires 0 <= k < |entries| => entries[k].suggestion.formatted)
    else []
  }

  // ---------------------------------------------------------------------------

  /**
   * The normaliser's promise: every suggestion has a non-empty `formatted`;
   * the suggestions are the provider's features, mapped, at increasing
   * positions; every feature with a non-empty `formatted` is among them; and
   * there are no more suggestions than features.
   */
  lemma SuggestionsSpec(features: seq<Feature>)
    ensures forall s :: s in Suggestions(features) ==> !EmptyString(s.formatted)
    ensures Embeds(Suggestions(features), Map(features, ToSuggestion), KeptPositions(Map(features, ToSuggestion), Listed))
    ensures forall i :: 0 <= i < |features| && Listed(ToSuggestion(features[i])) ==>
              ToSuggestion(features[i]) in Suggestions(features)
    ensures |Suggestions(features)| <= |features|
  {
    var items := Map(features, ToSuggestion);
    FilterAtKeptPositions(items, Listed);
    FilterMembership(items, Listed);
    FilterLength(items, Listed);
  }

  /**
   * `??` in the map step: a missing or null address is "" and a missing or
   * null coordinate is 0, whether the member or the whole `properties` is
   * absent; a given member is passed through.
   */
  lemma SuggestionDefaults(f: Feature)
    ensures !f.properties.Given? ==> ToSuggestion(f) == Suggestion("", 0.0, 0.0)
    ensures f.properties.Given? && !f.properties.value.formatted.Given? ==> ToSuggestion(f).formatted == ""
    ensures f.properties.Given? && !f.properties.value.lat.Given? ==> ToSuggestion(f).lat == 0.0
    ensures f.properties.Given? && !f.properties.value.lon.Given? ==> ToSuggestion(f).lon == 0.0
    ensures f.properties.Given? && f.properties.value.lat.Given? ==> ToSuggestion(f).lat == f.properties.value.lat.value
    ensures f.properties.Given? && f.properties.value.lon.Given? ==> ToSuggestion(f).lon == f.properties.value.lon.value
    ensures f.properties.Given? && f.properties.value.formatted.Given? ==>
              ToSuggestion(f).formatted == f.properties.value.formatted.value
  {
  }

  /**
   * As written, the response is a JSON array exactly when every feature
   * that is dropped comes after every feature that is kept.
   */
  lemma AsWrittenEncodesAsList(features: seq<Feature>)
    ensures EncodesAsList(EntriesAsWritten(features)) <==> DownClosed(Map(features, ToSuggestion), Listed)
  {
    var items := Map(features, ToSuggestion);
    WrittenKeys(features);
    KeysAreIndicesIffDownClosed(items, Listed);
  }

  /** As written, each entry's key is the position its feature had in the response. */
  lemma WrittenKeys(features: seq<Feature>)
    ensures var keys := KeptPositions(Map(features, ToSuggestion), Listed);
            EncodesAsList(EntriesAsWritten(features)) <==> KeysAreIndices(keys)
  {
    var items := Map(features, ToSuggestion);
    var keys := KeptPositions(items, Listed);
    var entries := EntriesAsWritten(features);
    FilterAtKeptPositions(items, Listed);
    assert |keys| == |entries|;
    forall k | 0 <= k < |entries| ensures entries[k].key == keys[k] {}
  }

  /**
   * A response whose first feature has no address and whose second has one:
   * the kept suggestion keeps key 1, the array is sent as the object
   * {"1": ...}, and the page shows no suggestion at all.
   */
  lemma AsWrittenHidesSuggestions()
    ensures var features := [Feature(Given(Properties(Missing, Missing, Missing, Missing))),
                             Feature(Given(Properties(Given("Austin, TX, United States of America"),
                                                      Given(30.2711), Given(-97.7437), Missing)))];
            |Suggestions(features)| == 1 &&
            !EncodesAsList(EntriesAsWritten(features)) &&
            ShownByClient(EntriesAsWritten(features)) == []
  {
    var features := [Feature(Given(Properties(Missing, Missing, Missing, Missing))),
                     Feature(Given(Properties(Given("Austin, TX, United States of America"),
                                              Given(30.2711), Given(-97.7437), Missing)))];
    var items := Map(features, ToSuggestion);
    assert !Listed(items[0]) && Listed(items[1]);
    AsWrittenEncodesAsList(features);
    assert !DownClosed(items, Listed) by {
      assert Listed(items[1]) && !Listed(items[0]);
    }
    assert Suggestions(features) == [items[1]] by {
      assert items == [items[0], items[1]];
      assert items[1..][1..] == [];
      assert Filter(items[1..], Listed) == [items[1]];
    }
  }

  /**
   * With `values()` the response is always a JSON array and the page shows
   * every kept address, in the provider's order.
   */
  lemma EntriesReachClient(features: seq<Feature>)
    ensures EncodesAsList(Entries(features))
    ensures ShownByClient(Entries(features)) == Map(Suggestions(features), (s: Suggestion) => s.formatted)
    ensures forall k :: 0 <= k < |Entries(features)| ==>
              Entries(features)[k].suggestion == EntriesAsWritten(features)[k].suggestion
  {
  }
}
