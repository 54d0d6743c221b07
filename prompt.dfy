/**
 * `constructPrompt`: the instruction sent to the text generator, assembled
 * from fixed sentences, the form's values, the nearby places and a style
 * clause chosen by platform.
 */
module Prompt {
  import opened Collections

  const NearbyLead: string := "Nearby attractions include: "
  const ListSeparator: string := ", "

  const FacebookStyle: string :=
    "The description should be engaging and encourage sharing. Include emojis where appropriate."
  const InstagramStyle: string :=
    "The description should be concise but impactful, with hashtag suggestions at the end. Include emojis."
  const SeoStyle: string :=
    "The description should be detailed and professional, optimized for SEO with relevant keywords."

  const Outline: string :=
    "Structure the description with these sections: 1) Engaging introduction, 2) Detailed property features, " +
    "3) Nearby attractions and amenities, 4) Closing statement with a call to action. "
  const ToneDirective: string :=
    "Use a professional but inviting tone. Avoid generic phrases and highlight unique aspects of the property."

  /** The clause naming the nearby places; nothing when there are none. */
  function NearbyClause(places: seq<string>): string
  {
    if places == [] then "" else NearbyLead + Join(ListSeparator, places) + ". "
  }

  /** The style clause: an exact match on the platform name, with the SEO clause as the default arm. */
  function StyleClause(platform: string): string
  {
    match platform
    case "Facebook" => FacebookStyle
    case "Instagram" => InstagramStyle
    case _ => SeoStyle
  }

  function LocationSentence(location: string): string
  {
    "Write a detailed 500-700 word property description for a real estate listing in " + location + ". "
  }

  function RoomsSentence(rooms: string, washrooms: string): string
  {
    "The property has " + rooms + " bedrooms and " + washrooms + " bathrooms. "
  }

  function FeaturesSentence(description: string): string
  {
    "Key features mentioned by the owner: " + description + ". "
  }

  function PlatformSentence(platform: string): string
  {
    "The description should be optimized for " + platform + ". " + StyleClause(platform) + " "
  }

  /**
   * The prompt.  `rooms` and `washrooms` are the text PHP interpolates for
   * the request's values.
   */
  function ConstructPrompt(location: string, rooms: string, washrooms: string, description: string,
                           places: seq<string>, platform: string): string
  {
    LocationSentence(location) + RoomsSentence(rooms, washrooms) + FeaturesSentence(description) +
    NearbyClause(places) + Outline + PlatformSentence(platform) + ToneDirective
  }

  // ---------------------------------------------------------------------------

  /**
   * The nearby clause is empty exactly when there are no places, and otherwise
   * is the lead, the names joined by ", ", and a full stop.
   */
  lemma NearbyClauseShape(places: seq<string>)
    ensures NearbyClause(places) == "" <==> places == []
    ensures places != [] ==> NearbyClause(places) == NearbyLead + Join(ListSeparator, places) + ". "
    ensures places != [] ==> |NearbyClause(places)| > |NearbyLead|
  {
  }

  /** Every nearby place is named in the clause. */
  lemma NearbyClauseNamesEachPlace(places: seq<string>)
    ensures forall k :: 0 <= k < |places| ==> Occurs(places[k], NearbyClause(places))
  {
    if places != [] {
      JoinContainsEach(ListSeparator, places);
      forall k | 0 <= k < |places|
        ensures Occurs(places[k], NearbyClause(places))
      {
        OccursWithin(places[k], Join(ListSeparator, places), NearbyLead, ". ");
      }
    }
  }

  /** Facebook and Instagram get their own clauses; every other name, "Own Website" included, gets the SEO clause. */
  lemma StyleSelection(platform: string)
    ensures platform == "Facebook" ==> StyleClause(platform) == FacebookStyle
    ensures platform == "Instagram" ==> StyleClause(platform) == InstagramStyle
    ensures platform != "Facebook" && platform != "Instagram" ==> StyleClause(platform) == SeoStyle
    ensures StyleClause("Own Website") == SeoStyle
    ensures StyleClause(platform) in {FacebookStyle, InstagramStyle, SeoStyle}
  {
  }

  /**
   * The prompt is the seven pieces in their fixed order, each at the offset
   * where the previous one ends: location sentence, rooms sentence, features
   * sentence, nearby clause, outline, platform sentence, tone directive.
   */
  lemma {:induction false} PromptLayout(location: string, rooms: string, washrooms: string, description: string,
                                        places: seq<string>, platform: string)
    ensures var p := ConstructPrompt(location, rooms, washrooms, description, places, platform);
            var a := |LocationSentence(location)|;
            var b := a + |RoomsSentence(rooms, washrooms)|;
            var c := b + |FeaturesSentence(description)|;
            var d := c + |NearbyClause(places)|;
            var e := d + |Outline|;
            var f := e + |PlatformSentence(platform)|;
            |p| == f + |ToneDirective| &&
            p[..a] == LocationSentence(location) &&
            p[a..b] == RoomsSentence(rooms, washrooms) &&
            p[b..c] == FeaturesSentence(description) &&
            p[c..d] == NearbyClause(places) &&
            p[d..e] == Outline &&
            p[e..f] == PlatformSentence(platform) &&
            p[f..] == ToneDirective
  {
    Pieces(LocationSentence(location), RoomsSentence(rooms, washrooms), FeaturesSentence(description),
           NearbyClause(places), Outline, PlatformSentence(platform), ToneDirective);
  }

  /** Seven strings laid end to end can be read back at their running offsets. */
  lemma Pieces(s1: string, s2: string, s3: string, s4: string, s5: string, s6: string, s7: string)
    ensures var p := s1 + s2 + s3 + s4 + s5 + s6 + s7;
            var a := |s1|;
            var b := a + |s2|;
            var c := b + |s3|;
            var d := c + |s4|;
            var e := d + |s5|;
            var f := e + |s6|;
            |p| == f + |s7| &&
            p[..a] == s1 && p[a..b] == s2 && p[b..c] == s3 && p[c..d] == s4 &&
            p[d..e] == s5 && p[e..f] == s6 && p[f..] == s7
  {
    var p := s1 + s2 + s3 + s4 + s5 + s6 + s7;
    var a := |s1|;
    var b := a + |s2|;
    var c := b + |s3|;
    var d := c + |s4|;
    var e := d + |s5|;
    var f := e + |s6|;
    assert p[..a] == s1;
    assert p[a..b] == s2;
    assert p[b..c] == s3;
    assert p[c..d] == s4;
    assert p[d..e] == s5;
    assert p[e..f] == s6;
    assert p[f..] == s7;
  }

  /**
   * The nearby places reach the prompt only as the nearby clause, inserted at
   * a position fixed by the location, the counts and the description: the
   * prompt equals the prompt without places exactly when there are none.
   */
  lemma NearbyInsertion(location: string, rooms: string, washrooms: string, description: string,
                        places: seq<string>, platform: string)
    ensures var bare := ConstructPrompt(location, rooms, washrooms, description, [], platform);
            var k := |LocationSentence(location) + RoomsSentence(rooms, washrooms) + FeaturesSentence(description)|;
            k <= |bare| &&
            ConstructPrompt(location, rooms, washrooms, description, places, platform) ==
              bare[..k] + NearbyClause(places) + bare[k..]
    ensures (ConstructPrompt(location, rooms, washrooms, description, places, platform) ==
             ConstructPrompt(location, rooms, washrooms, description, [], platform)) <==> places == []
  {
    NearbyClauseShape(places);
    Insertion(LocationSentence(location), RoomsSentence(rooms, washrooms), FeaturesSentence(description),
              NearbyClause(places), Outline, PlatformSentence(platform), ToneDirective);
  }

  /** Putting `s4` between the first three and the last three pieces inserts it at offset |s1 + s2 + s3|. */
  lemma Insertion(s1: string, s2: string, s3: string, s4: string, s5: string, s6: string, s7: string)
    ensures var bare := s1 + s2 + s3 + "" + s5 + s6 + s7;
            var k := |s1 + s2 + s3|;
            k <= |bare| &&
            s1 + s2 + s3 + s4 + s5 + s6 + s7 == bare[..k] + s4 + bare[k..] &&
            (s1 + s2 + s3 + s4 + s5 + s6 + s7 == bare <==> s4 == "")
  {
    var head, tail := s1 + s2 + s3, s5 + s6 + s7;
    var bare := s1 + s2 + s3 + "" + s5 + s6 + s7;
    assert bare == head + tail;
    assert s1 + s2 + s3 + s4 + s5 + s6 + s7 == head + s4 + tail;
    assert bare[..|head|] == head && bare[|head|..] == tail;
    if s4 != "" {
      assert |head + s4 + tail| > |bare|;
    }
  }

  /** A substring of any one of seven pieces is a substring of their concatenation. */
  lemma Within(t: string, s1: string, s2: string, s3: string, s4: string, s5: string, s6: string, s7: string)
    requires Occurs(t, s1) || Occurs(t, s2) || Occurs(t, s3) || Occurs(t, s4) ||
             Occurs(t, s5) || Occurs(t, s6) || Occurs(t, s7)
    ensures Occurs(t, s1 + s2 + s3 + s4 + s5 + s6 + s7)
  {
    var p := s1 + s2 + s3 + s4 + s5 + s6 + s7;
    if Occurs(t, s1) {
      assert p == "" + s1 + (s2 + s3 + s4 + s5 + s6 + s7);
      OccursWithin(t, s1, "", s2 + s3 + s4 + s5 + s6 + s7);
    } else if Occurs(t, s2) {
      assert p == s1 + s2 + (s3 + s4 + s5 + s6 + s7);
      OccursWithin(t, s2, s1, s3 + s4 + s5 + s6 + s7);
    } else if Occurs(t, s3) {
      assert p == (s1 + s2) + s3 + (s4 + s5 + s6 + s7);
      OccursWithin(t, s3, s1 + s2, s4 + s5 + s6 + s7);
    } else if Occurs(t, s4) {
      assert p == (s1 + s2 + s3) + s4 + (s5 + s6 + s7);
      OccursWithin(t, s4, s1 + s2 + s3, s5 + s6 + s7);
    } else if Occurs(t, s5) {
      assert p == (s1 + s2 + s3 + s4) + s5 + (s6 + s7);
      OccursWithin(t, s5, s1 + s2 + s3 + s4, s6 + s7);
    } else if Occurs(t, s6) {
      assert p == (s1 + s2 + s3 + s4 + s5) + s6 + s7;
      OccursWithin(t, s6, s1 + s2 + s3 + s4 + s5, s7);
    } else {
      assert p == (s1 + s2 + s3 + s4 + s5 + s6) + s7 + "";
      OccursWithin(t, s7, s1 + s2 + s3 + s4 + s5 + s6, "");
    }
  }

  /** The location, the counts sentence and the owner's description show in the prompt. */
  lemma FieldsInPrompt(location: string, rooms: string, washrooms: string, description: string,
                       places: seq<string>, platform: string)
    ensures Occurs(location, ConstructPrompt(location, rooms, washrooms, description, places, platform))
    ensures Occurs(rooms + " bedrooms and " + washrooms + " bathrooms",
                   ConstructPrompt(location, rooms, washrooms, description, places, platform))
    ensures Occurs(description, ConstructPrompt(location, rooms, washrooms, description, places, platform))
  {
    LocationMentioned(location);
    InPrompt(location, location, rooms, washrooms, description, places, platform);
    CountsMentioned(rooms, washrooms);
    InPrompt(rooms + " bedrooms and " + washrooms + " bathrooms", location, rooms, washrooms, description, places, platform);
    DescriptionMentioned(description);
    InPrompt(description, location, rooms, washrooms, description, places, platform);
  }

  /** The platform's sentence and its style clause show in the prompt. */
  lemma PlatformInPrompt(location: string, rooms: string, washrooms: string, description: string,
                         places: seq<string>, platform: string)
    ensures Occurs("optimized for " + platform + ". ",
                   ConstructPrompt(location, rooms, washrooms, description, places, platform))
    ensures Occurs(StyleClause(platform), ConstructPrompt(location, rooms, washrooms, description, places, platform))
  {
    PlatformMentioned(platform);
    InPrompt("optimized for " + platform + ". ", location, rooms, washrooms, description, places, platform);
    InPrompt(StyleClause(platform), location, rooms, washrooms, description, places, platform);
  }

  /** Every nearby place, and the whole nearby sentence, shows in the prompt. */
  lemma PlacesInPrompt(location: string, rooms: string, washrooms: string, description: string,
                       places: seq<string>, platform: string)
    ensures forall k :: 0 <= k < |places| ==>
              Occurs(places[k], ConstructPrompt(location, rooms, washrooms, description, places, platform))
    ensures places != [] ==> Occurs(NearbyLead + Join(ListSeparator, places) + ".",
                                    ConstructPrompt(location, rooms, washrooms, description, places, platform))
  {
    NearbyMentioned(places);
    forall k | 0 <= k < |places|
      ensures Occurs(places[k], ConstructPrompt(location, rooms, washrooms, description, places, platform))
    {
      InPrompt(places[k], location, rooms, washrooms, description, places, platform);
    }
    if places != [] {
      InPrompt(NearbyLead + Join(ListSeparator, places) + ".", location, rooms, washrooms, description, places, platform);
    }
  }

  /** A substring of one of the prompt's pieces is a substring of the prompt. */
  lemma InPrompt(t: string, location: string, rooms: string, washrooms: string, description: string,
                 places: seq<string>, platform: string)
    requires Occurs(t, LocationSentence(location)) || Occurs(t, RoomsSentence(rooms, washrooms)) ||
             Occurs(t, FeaturesSentence(description)) || Occurs(t, NearbyClause(places)) ||
             Occurs(t, PlatformSentence(platform))
    ensures Occurs(t, ConstructPrompt(location, rooms, washrooms, description, places, platform))
  {
    Within(t, LocationSentence(location), RoomsSentence(rooms, washrooms), FeaturesSentence(description),
           NearbyClause(places), Outline, PlatformSentence(platform), ToneDirective);
  }

  lemma NearbyMentioned(places: seq<string>)
    ensures forall k :: 0 <= k < |places| ==> Occurs(places[k], NearbyClause(places))
    ensures places != [] ==> Occurs(NearbyLead + Join(ListSeparator, places) + ".", NearbyClause(places))
  {
    NearbyClauseNamesEachPlace(places);
    if places != [] {
      FullStopMentioned(NearbyLead + Join(ListSeparator, places));
    }
  }

  /** A sentence ending in ". " contains the sentence with its full stop. */
  lemma FullStopMentioned(x: string)
    ensures Occurs(x + ".", x + ". ")
  {
    assert x + ". " == "" + (x + ".") + " ";
    OccursAt3(x + ".", "", " ");
  }

  lemma LocationMentioned(location: string)
    ensures Occurs(location, LocationSentence(location))
  {
    OccursAt3(location, "Write a detailed 500-700 word property description for a real estate listing in ", ". ");
  }

  lemma DescriptionMentioned(description: string)
    ensures Occurs(description, FeaturesSentence(description))
  {
    OccursAt3(description, "Key features mentioned by the owner: ", ". ");
  }

  lemma CountsMentioned(rooms: string, washrooms: string)
    ensures Occurs(rooms + " bedrooms and " + washrooms + " bathrooms", RoomsSentence(rooms, washrooms))
  {
    var counts := rooms + " bedrooms and " + washrooms + " bathrooms";
    assert RoomsSentence(rooms, washrooms) == "The property has " + counts + ". ";
    OccursAt3(counts, "The property has ", ". ");
  }

  lemma PlatformMentioned(platform: string)
    ensures Occurs("optimized for " + platform + ". ", PlatformSentence(platform))
    ensures Occurs(StyleClause(platform), PlatformSentence(platform))
  {
    var opt := "optimized for " + platform + ". ";
    var style := StyleClause(platform);
    var lead := "The description should be ";
    assert PlatformSentence(platform) == lead + opt + style + " ";
    assert lead + opt + style + " " == lead + opt + (style + " ");
    OccursAt3(opt, lead, style + " ");
    OccursAt3(style, lead + opt, " ");
  }

  lemma OccursAt3(t: string, a: string, b: string)
    ensures Occurs(t, a + t + b)
  {
    OccursInside(t, a, b);
  }
}
