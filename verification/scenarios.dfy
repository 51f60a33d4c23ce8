/**
 * Worked examples of the rule functions on concrete titles and descriptions.
 */
module Scenarios {
  import opened Wrappers
  import opened PyStr
  import opened Gaps
  import opened Rules

  /** "MEDIA" mentions "IA" as a substring, so youtube_opt.py reports "Incluye IA" for it. */
  lemma MediaMentionsAI()
    ensures IncluyeIA in OptTitle("MEDIA")
  {
    assert Upper("MEDIA") == "MEDIA";
    assert OccursAt("MEDIA", "IA", 3);
    ContainsIff("MEDIA", "IA");
  }

  /** A space or an ASCII letter: neither a digit nor one of the listed emojis. */
  predicate Plain(c: char)
  {
    c == ' ' || 'A' <= c <= 'Z' || 'a' <= c <= 'z'
  }

  predicate AllPlain(s: string)
  {
    forall i :: 0 <= i < |s| ==> Plain(s[i])
  }

  lemma PlainHasNoDigitOrEmoji(s: string)
    requires AllPlain(s)
    ensures !HasDigit(s) && !HasEmoji(s)
  {
    forall i | 0 <= i < |Emojis|
      ensures !Contains(s, Emojis[i])
    {
      AbsentHeadNotContained(s, Emojis[i]);
    }
  }

  /** "How I Made $1000 in 30 Days 🔥", written in pieces. */
  const CleanTitle: string := "How I Made " + "$1000 in " + "30 Days 🔥"

  /** A 29-character title with digits and a listed emoji and no "free" gets no title label. */
  lemma CleanTitleScenario()
    ensures |CleanTitle| == 29
    ensures AppTitle(CleanTitle) == []
  {
    var t := CleanTitle;
    NoFreeInCleanTitle();
    EmojiInCleanTitle();
    assert t[11] == '$' && IsDigit(t[12]);
  }

  lemma EmojiInCleanTitle()
    ensures HasEmoji(CleanTitle)
  {
    var t := CleanTitle;
    assert t[28..29] == "🔥";
    assert OccursAt(t, "🔥", 28);
    ContainsIff(t, "🔥");
    assert Emojis[4] == "🔥";
  }

  /** No character of `s` is an 'f' or a 'g' of either case. */
  predicate NoFG(s: string)
  {
    forall i :: 0 <= i < |s| ==> s[i] !in {'F', 'f', 'G', 'g'}
  }

  lemma CleanTitleChars()
    ensures 'F' !in CleanTitle && 'f' !in CleanTitle && 'G' !in CleanTitle && 'g' !in CleanTitle
  {
    assert NoFG("How I Made ");
    assert NoFG("$1000 in ");
    assert NoFG("30 Days 🔥");
    assert NoFG(CleanTitle);
  }

  lemma NoFreeInCleanTitle()
    ensures !PromotesFree(CleanTitle)
  {
    var t := CleanTitle;
    CleanTitleChars();
    UpperAvoids(t, 'F');
    UpperAvoids(t, 'G');
    AbsentHeadNotContained(Upper(t), "FREE");
    AbsentHeadNotContained(Upper(t), "GRATIS");
  }

  /** "FREE Secret Growth Hack You Need To Try Today Before Everyone Else Does", written in pieces. */
  const FreeLongTitle: string :=
    "FREE Secret " + "Growth Hack " + "You Need To " + "Try Today " + "Before Everyone " + "Else Does"

  /** A 71-character "FREE" title without digits or listed emojis gets all four title labels, in source order. */
  lemma FreeLongTitleScenario()
    ensures |FreeLongTitle| == 71
    ensures AppTitle(FreeLongTitle) == [TituloLargo, IncluyeFreeGratis, SinEmojis, SinNumeros]
  {
    var t := FreeLongTitle;
    var u := Upper(t);
    assert t[..4] == "FREE";
    assert u[..4] == Upper("FREE");
    assert Upper("FREE") == "FREE";
    assert OccursAt(u, "FREE", 0);
    ContainsIff(u, "FREE");
    FreeLongTitlePlain();
    PlainHasNoDigitOrEmoji(t);
  }

  lemma FreeLongTitlePlain()
    ensures AllPlain(FreeLongTitle)
  {
    assert AllPlain("FREE Secret ");
    assert AllPlain("Growth Hack ");
    assert AllPlain("You Need To ");
    assert AllPlain("Try Today ");
    assert AllPlain("Before Everyone ");
    assert AllPlain("Else Does");
  }

  /** An empty description yields only "Metadescripción ausente", and a missing playlist always yields the playlist label. */
  lemma EmptyDescriptionScenario(v: Variant, title: string)
    ensures Evaluate(v, title, VideoDetail("", None)) == TitleRules(v, title) + [MetadescripcionAusente, SinPlaylist]
  {
    assert IsBlank("");
    assert !LacksKeywords(title, "");
    assert DescriptionRules(v, "") == [MetadescripcionAusente];
    assert Extras(VideoDetail("", None), title) == [SinPlaylist];
  }
}
