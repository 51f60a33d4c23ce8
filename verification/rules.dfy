/**
 * The `analizar_titulo`, `analizar_descripcion` and `analizar_extras` rule
 * functions. Each front end appends labels conditionally in a fixed order;
 * app.py and gradio_app.py share one rule set, youtube_opt.py adds the
 * "Incluye IA" and hashtag rules, and Youtube_MVP3.py adds the positive
 * labels "Usa emoji" and "Incluye CTA".
 */
module Rules {
  import opened Wrappers
  import opened PyStr
  import opened Gaps

  /** The per-video detail record the rules read; a missing or null description is "". */
  datatype VideoDetail = VideoDetail(description: string, playlistTitle: Option<string>)

  const Emojis: seq<string> := ["💥", "💣", "🍌", "🚨", "🔥", "🚀"]
  const Ctas: seq<string> := ["suscríbete", "subscribe", "comenta", "dale like", "haz clic", "entra al link", "únete"]
  const Questions: seq<string> := ["¿", "?", "comenta", "opina", "qué piensas"]
  const StopWords: set<string> := {"de", "la", "el", "en", "a", "y", "con", "para", "por", "the", "and", "to", "for", "with"}

  // ---------------------------------------------------------------------------------------
  // The conditions the rules test

  predicate PromotesFree(title: string)
  {
    Contains(Upper(title), "FREE") || Contains(Upper(title), "GRATIS")
  }

  predicate MentionsAI(title: string)
  {
    Contains(Upper(title), "AI") || Contains(Upper(title), "IA")
  }

  predicate HasEmoji(title: string)
  {
    ContainsAny(title, Emojis)
  }

  /** `not desc or len(desc.strip()) == 0`. */
  predicate IsBlank(desc: string)
  {
    |Strip(desc)| == 0
  }

  predicate HasCta(desc: string)
  {
    ContainsAny(Lower(desc), Ctas)
  }

  predicate HasQuestion(desc: string)
  {
    ContainsAny(Lower(desc), Questions)
  }

  /** `desc.count('#') == 0` fails. */
  predicate HasHashtag(desc: string)
  {
    '#' in desc
  }

  /** `not video_info.get('playlist_title', None)` fails: a non-empty playlist title is present. */
  predicate HasPlaylist(playlistTitle: Option<string>)
  {
    playlistTitle.Some? && playlistTitle.value != []
  }

  /** `set(s.split())`. */
  function WordSet(s: string): set<string>
  {
    set w | w in Split(s)
  }

  /** Title words, lower-cased and without stop words, that are also words of the description. */
  function SharedKeywords(title: string, desc: string): set<string>
  {
    (WordSet(Lower(title)) - StopWords) * WordSet(Lower(desc))
  }

  /** The keyword rule: a long description sharing fewer than 3 keywords with the title. */
  predicate LacksKeywords(title: string, desc: string)
  {
    desc != [] && |Strip(desc)| >= 150 && |SharedKeywords(title, desc)| < 3
  }

  // ---------------------------------------------------------------------------------------
  // Order of emission

  /** `r` lists some of the labels of `order`, in the same relative order. */
  predicate SubseqOf(r: seq<Gap>, order: seq<Gap>)
    decreases |order|
  {
    if r == [] then true
    else if order == [] then false
    else if r[0] == order[0] then SubseqOf(r[1..], order[1..])
    else SubseqOf(r, order[1..])
  }

  predicate Distinct(r: seq<Gap>)
  {
    forall i, j :: 0 <= i < j < |r| ==> r[i] != r[j]
  }

  function When(b: bool, g: Gap): seq<Gap>
  {
    if b then [g] else []
  }

  lemma {:induction false} SubseqDropHead(r: seq<Gap>, order: seq<Gap>)
    requires r != [] && SubseqOf(r, order)
    ensures SubseqOf(r[1..], order)
    decreases |order|, 0
  {
    if r[0] == order[0] {
      SubseqWeaken(r[1..], order[1..], order[0]);
    } else {
      SubseqDropHead(r, order[1..]);
      SubseqWeaken(r[1..], order[1..], order[0]);
    }
  }

  lemma {:induction false} SubseqWeaken(r: seq<Gap>, order: seq<Gap>, g: Gap)
    requires SubseqOf(r, order)
    ensures SubseqOf(r, [g] + order)
    decreases |order|, 1
  {
    var o := [g] + order;
    assert o[1..] == order;
    if r != [] && r[0] == g {
      SubseqDropHead(r, order);
    }
  }

  lemma {:induction false} SubseqConcat(r1: seq<Gap>, o1: seq<Gap>, r2: seq<Gap>, o2: seq<Gap>)
    requires SubseqOf(r1, o1) && SubseqOf(r2, o2)
    ensures SubseqOf(r1 + r2, o1 + o2)
    decreases |o1|
  {
    if o1 == [] {
      assert r1 == [] && r1 + r2 == r2 && o1 + o2 == o2;
    } else {
      assert (o1 + o2)[1..] == o1[1..] + o2;
      if r1 != [] && r1[0] == o1[0] {
        assert (r1 + r2)[1..] == r1[1..] + r2;
        SubseqConcat(r1[1..], o1[1..], r2, o2);
      } else {
        SubseqConcat(r1, o1[1..], r2, o2);
        if r1 == [] {
          assert r1 + r2 == r2;
          SubseqWeaken(r2, o1[1..] + o2, o1[0]);
          assert [o1[0]] + (o1[1..] + o2) == o1 + o2;
        }
      }
    }
  }

  /** Listing labels in the order of a duplicate-free order lists each at most once. */
  lemma {:induction false} SubseqDistinct(r: seq<Gap>, order: seq<Gap>)
    requires SubseqOf(r, order) && Distinct(order)
    ensures Distinct(r) && forall g :: g in r ==> g in order
    decreases |order|
  {
    if r != [] {
      if r[0] == order[0] {
        SubseqDistinct(r[1..], order[1..]);
        assert order[0] !in order[1..];
        assert forall g :: g in r ==> g == r[0] || g in r[1..];
        forall i, j | 0 <= i < j < |r| ensures r[i] != r[j] {
          if i > 0 { assert r[i] == r[1..][i - 1]; }
          assert r[j] == r[1..][j - 1];
        }
      } else {
        SubseqDistinct(r, order[1..]);
      }
    }
  }

  /** Every label of a list in order against `order` is a label of `order`. */
  lemma {:induction false} SubseqMembers(r: seq<Gap>, order: seq<Gap>)
    requires SubseqOf(r, order)
    ensures forall g :: g in r ==> g in order
    decreases |order|
  {
    if r != [] {
      if r[0] == order[0] {
        SubseqMembers(r[1..], order[1..]);
        assert forall g :: g in r ==> g == r[0] || g in r[1..];
      } else {
        SubseqMembers(r, order[1..]);
      }
    }
  }

  /** A list in order against the tail of an order is in order against the whole order. */
  lemma PresentFirst(r: seq<Gap>, order: seq<Gap>)
    requires order != [] && SubseqOf(r, order[1..])
    ensures SubseqOf(r, order)
  {
    SubseqWeaken(r, order[1..], order[0]);
    assert [order[0]] + order[1..] == order;
  }

  /** Membership in a three-part list whose outer parts lack the label. */
  lemma InMiddle(g: Gap, t: seq<Gap>, d: seq<Gap>, x: seq<Gap>)
    requires g !in t && g !in x
    ensures (g in t + d + x) == (g in d)
  {
  }

  /** Membership in a three-part list whose last two parts lack the label. */
  lemma InFront(g: Gap, t: seq<Gap>, d: seq<Gap>, x: seq<Gap>)
    requires g !in d && g !in x
    ensures (g in t + d + x) == (g in t)
  {
  }

  /** The labels each rule function can emit, in the order it emits them. */
  const AppTitleOrder: seq<Gap> := [TituloLargo, IncluyeFreeGratis, SinEmojis, SinNumeros]
  const OptTitleOrder: seq<Gap> := [TituloLargo, IncluyeIA, IncluyeFreeGratis, SinEmojis, SinNumeros]
  const Mvp3TitleOrder: seq<Gap> := [TituloLargo, IncluyeIA, IncluyeFreeGratis, UsaEmoji, SinEmojis, SinNumeros]
  const AppDescriptionOrder: seq<Gap> := [MetadescripcionAusente, DescripcionCorta, SinCTA, SinPregunta]
  const OptDescriptionOrder: seq<Gap> := [MetadescripcionAusente, DescripcionCorta, SinCTA, SinHashtags, SinPregunta]
  const Mvp3DescriptionOrder: seq<Gap> := [MetadescripcionAusente, DescripcionCorta, IncluyeCTA, SinCTA, SinPregunta]
  const ExtrasOrder: seq<Gap> := [SinPlaylist, SinKeywords]

  const AppOrder: seq<Gap> := AppTitleOrder + AppDescriptionOrder + ExtrasOrder
  const OptOrder: seq<Gap> := OptTitleOrder + OptDescriptionOrder + ExtrasOrder
  const Mvp3Order: seq<Gap> := Mvp3TitleOrder + Mvp3DescriptionOrder + ExtrasOrder

  // ---------------------------------------------------------------------------------------
  // analizar_titulo

  /** `analizar_titulo` of app.py and gradio_app.py. */
  function AppTitle(title: string): (r: seq<Gap>)
    ensures TituloLargo in r <==> |title| > 60
    ensures IncluyeFreeGratis in r <==> PromotesFree(title)
    ensures SinEmojis in r <==> !HasEmoji(title)
    ensures SinNumeros in r <==> !HasDigit(title)
  {
    var r := When(|title| > 60, TituloLargo)
           + (When(PromotesFree(title), IncluyeFreeGratis)
           + (When(!HasEmoji(title), SinEmojis)
           + When(!HasDigit(title), SinNumeros)));
    r
  }

  /** `analizar_titulo` of youtube_opt.py: app.py's rules plus "Incluye IA" in second place. */
  function OptTitle(title: string): (r: seq<Gap>)
    ensures TituloLargo in r <==> |title| > 60
    ensures IncluyeIA in r <==> MentionsAI(title)
    ensures IncluyeFreeGratis in r <==> PromotesFree(title)
    ensures SinEmojis in r <==> !HasEmoji(title)
    ensures SinNumeros in r <==> !HasDigit(title)
  {
    When(|title| > 60, TituloLargo)
    + (When(MentionsAI(title), IncluyeIA)
    + (When(PromotesFree(title), IncluyeFreeGratis)
    + (When(!HasEmoji(title), SinEmojis)
    + When(!HasDigit(title), SinNumeros))))
  }

  /** `analizar_titulo` of Youtube_MVP3.py: exactly one of "Usa emoji" and "Sin emojis en título". */
  function Mvp3Title(title: string): (r: seq<Gap>)
    ensures TituloLargo in r <==> |title| > 60
    ensures IncluyeIA in r <==> MentionsAI(title)
    ensures IncluyeFreeGratis in r <==> PromotesFree(title)
    ensures UsaEmoji in r <==> HasEmoji(title)
    ensures SinEmojis in r <==> !HasEmoji(title)
    ensures SinNumeros in r <==> !HasDigit(title)
  {
    When(|title| > 60, TituloLargo)
    + (When(MentionsAI(title), IncluyeIA)
    + (When(PromotesFree(title), IncluyeFreeGratis)
    + (When(HasEmoji(title), UsaEmoji)
    + (When(!HasEmoji(title), SinEmojis)
    + When(!HasDigit(title), SinNumeros)))))
  }

  // ---------------------------------------------------------------------------------------
  // analizar_descripcion

  /** `analizar_descripcion` of app.py and gradio_app.py. */
  function AppDescription(desc: string): (r: seq<Gap>)
    ensures IsBlank(desc) ==> r == [MetadescripcionAusente]
    ensures !IsBlank(desc) ==>
      && MetadescripcionAusente !in r
      && (DescripcionCorta in r <==> |Strip(desc)| < 150)
      && (SinCTA in r <==> !HasCta(desc))
      && (SinPregunta in r <==> !HasQuestion(desc))
  {
    if IsBlank(desc) then [MetadescripcionAusente]
    else
      When(|Strip(desc)| < 150, DescripcionCorta)
      + (When(!HasCta(desc), SinCTA)
      + When(!HasQuestion(desc), SinPregunta))
  }

  /** `analizar_descripcion` of youtube_opt.py: app.py's rules plus the hashtag rule before the question rule. */
  function OptDescription(desc: string): (r: seq<Gap>)
    ensures IsBlank(desc) ==> r == [MetadescripcionAusente]
    ensures !IsBlank(desc) ==>
      && MetadescripcionAusente !in r
      && (DescripcionCorta in r <==> |Strip(desc)| < 150)
      && (SinCTA in r <==> !HasCta(desc))
      && (SinHashtags in r <==> !HasHashtag(desc))
      && (SinPregunta in r <==> !HasQuestion(desc))
  {
    if IsBlank(desc) then [MetadescripcionAusente]
    else
      When(|Strip(desc)| < 150, DescripcionCorta)
      + (When(!HasCta(desc), SinCTA)
      + (When(!HasHashtag(desc), SinHashtags)
      + When(!HasQuestion(desc), SinPregunta)))
  }

  /** `analizar_descripcion` of Youtube_MVP3.py: exactly one of "Incluye CTA" and "Sin CTA" for a present description. */
  function Mvp3Description(desc: string): (r: seq<Gap>)
    ensures IsBlank(desc) ==> r == [MetadescripcionAusente]
    ensures !IsBlank(desc) ==>
      && MetadescripcionAusente !in r
      && (DescripcionCorta in r <==> |Strip(desc)| < 150)
      && (IncluyeCTA in r <==> HasCta(desc))
      && (SinCTA in r <==> !HasCta(desc))
      && (SinPregunta in r <==> !HasQuestion(desc))
  {
    if IsBlank(desc) then [MetadescripcionAusente]
    else
      When(|Strip(desc)| < 150, DescripcionCorta)
      + (When(HasCta(desc), IncluyeCTA)
      + (When(!HasCta(desc), SinCTA)
      + When(!HasQuestion(desc), SinPregunta)))
  }

  // ---------------------------------------------------------------------------------------
  // analizar_extras (identical in all four files)

  /** `analizar_extras`: the playlist rule, then the title-keyword rule. */
  function Extras(detail: VideoDetail, title: string): (r: seq<Gap>)
    ensures SinPlaylist in r <==> !HasPlaylist(detail.playlistTitle)
    ensures SinKeywords in r <==>
      |Strip(detail.description)| >= 150 && |SharedKeywords(title, detail.description)| < 3
  {
    When(!HasPlaylist(detail.playlistTitle), SinPlaylist)
    + When(LacksKeywords(title, detail.description), SinKeywords)
  }

  // ---------------------------------------------------------------------------------------
  // Each rule function emits its labels in the fixed order of the source

  /** Prepending an optional label to a list in order keeps it in order against the order with that label in front. */
  lemma WhenPrepend(b: bool, g: Gap, rest: seq<Gap>, order: seq<Gap>)
    requires SubseqOf(rest, order)
    ensures SubseqOf(When(b, g) + rest, [g] + order)
  {
    var o := [g] + order;
    assert o[0] == g && o[1..] == order;
    if b {
      var r := When(b, g) + rest;
      assert r[0] == g && r[1..] == rest;
    } else {
      assert When(b, g) + rest == rest;
      SubseqWeaken(rest, order, g);
    }
  }

  lemma Ordered2(b1: bool, g1: Gap, b2: bool, g2: Gap)
    ensures SubseqOf(When(b1, g1) + When(b2, g2), [g1, g2])
  {
    WhenPrepend(b2, g2, [], []);
    assert When(b2, g2) + [] == When(b2, g2) && [g2] + [] == [g2];
    WhenPrepend(b1, g1, When(b2, g2), [g2]);
  }

  lemma Ordered3(b1: bool, g1: Gap, b2: bool, g2: Gap, b3: bool, g3: Gap)
    ensures SubseqOf(When(b1, g1) + (When(b2, g2) + When(b3, g3)), [g1, g2, g3])
  {
    Ordered2(b2, g2, b3, g3);
    WhenPrepend(b1, g1, When(b2, g2) + When(b3, g3), [g2, g3]);
    assert [g1] + [g2, g3] == [g1, g2, g3];
  }

  lemma Ordered4(b1: bool, g1: Gap, b2: bool, g2: Gap, b3: bool, g3: Gap, b4: bool, g4: Gap)
    ensures SubseqOf(When(b1, g1) + (When(b2, g2) + (When(b3, g3) + When(b4, g4))), [g1, g2, g3, g4])
  {
    Ordered3(b2, g2, b3, g3, b4, g4);
    WhenPrepend(b1, g1, When(b2, g2) + (When(b3, g3) + When(b4, g4)), [g2, g3, g4]);
    assert [g1] + [g2, g3, g4] == [g1, g2, g3, g4];
  }

  lemma Ordered5(b1: bool, g1: Gap, b2: bool, g2: Gap, b3: bool, g3: Gap, b4: bool, g4: Gap, b5: bool, g5: Gap)
    ensures SubseqOf(When(b1, g1) + (When(b2, g2) + (When(b3, g3) + (When(b4, g4) + When(b5, g5)))),
                     [g1, g2, g3, g4, g5])
  {
    Ordered4(b2, g2, b3, g3, b4, g4, b5, g5);
    WhenPrepend(b1, g1, When(b2, g2) + (When(b3, g3) + (When(b4, g4) + When(b5, g5))), [g2, g3, g4, g5]);
    assert [g1] + [g2, g3, g4, g5] == [g1, g2, g3, g4, g5];
  }

  lemma Ordered6(b1: bool, g1: Gap, b2: bool, g2: Gap, b3: bool, g3: Gap, b4: bool, g4: Gap, b5: bool, g5: Gap,
                 b6: bool, g6: Gap)
    ensures SubseqOf(When(b1, g1) + (When(b2, g2) + (When(b3, g3) + (When(b4, g4) + (When(b5, g5) + When(b6, g6))))),
                     [g1, g2, g3, g4, g5, g6])
  {
    Ordered5(b2, g2, b3, g3, b4, g4, b5, g5, b6, g6);
    WhenPrepend(b1, g1, When(b2, g2) + (When(b3, g3) + (When(b4, g4) + (When(b5, g5) + When(b6, g6)))),
                [g2, g3, g4, g5, g6]);
    assert [g1] + [g2, g3, g4, g5, g6] == [g1, g2, g3, g4, g5, g6];
  }

  lemma AppTitleOrdered(title: string)
    ensures SubseqOf(AppTitle(title), AppTitleOrder)
  {
    Ordered4(|title| > 60, TituloLargo, PromotesFree(title), IncluyeFreeGratis,
             !HasEmoji(title), SinEmojis, !HasDigit(title), SinNumeros);
  }

  lemma OptTitleOrdered(title: string)
    ensures SubseqOf(OptTitle(title), OptTitleOrder)
  {
    Ordered5(|title| > 60, TituloLargo, MentionsAI(title), IncluyeIA, PromotesFree(title), IncluyeFreeGratis,
             !HasEmoji(title), SinEmojis, !HasDigit(title), SinNumeros);
  }

  lemma Mvp3TitleOrdered(title: string)
    ensures SubseqOf(Mvp3Title(title), Mvp3TitleOrder)
  {
    Ordered6(|title| > 60, TituloLargo, MentionsAI(title), IncluyeIA, PromotesFree(title), IncluyeFreeGratis,
             HasEmoji(title), UsaEmoji, !HasEmoji(title), SinEmojis, !HasDigit(title), SinNumeros);
  }

  /** A blank description's single label heads every description order. */
  lemma MissingFirst(order: seq<Gap>)
    requires order != [] && order[0] == MetadescripcionAusente
    ensures SubseqOf([MetadescripcionAusente], order)
  {
    assert [MetadescripcionAusente][1..] == [];
  }

  lemma AppDescriptionOrdered(desc: string)
    ensures SubseqOf(AppDescription(desc), AppDescriptionOrder)
  {
    if IsBlank(desc) {
      MissingFirst(AppDescriptionOrder);
    } else {
      AppPresentDescriptionOrdered(desc);
      PresentFirst(AppDescription(desc), AppDescriptionOrder);
    }
  }

  lemma AppPresentDescriptionOrdered(desc: string)
    requires !IsBlank(desc)
    ensures SubseqOf(AppDescription(desc), AppDescriptionOrder[1..])
  {
    Ordered3(|Strip(desc)| < 150, DescripcionCorta, !HasCta(desc), SinCTA, !HasQuestion(desc), SinPregunta);
    assert AppDescriptionOrder[1..] == [DescripcionCorta, SinCTA, SinPregunta];
  }

  lemma OptDescriptionOrdered(desc: string)
    ensures SubseqOf(OptDescription(desc), OptDescriptionOrder)
  {
    if IsBlank(desc) {
      MissingFirst(OptDescriptionOrder);
    } else {
      OptPresentDescriptionOrdered(desc);
      PresentFirst(OptDescription(desc), OptDescriptionOrder);
    }
  }

  lemma OptPresentDescriptionOrdered(desc: string)
    requires !IsBlank(desc)
    ensures SubseqOf(OptDescription(desc), OptDescriptionOrder[1..])
  {
    Ordered4(|Strip(desc)| < 150, DescripcionCorta, !HasCta(desc), SinCTA, !HasHashtag(desc), SinHashtags,
               !HasQuestion(desc), SinPregunta);
    assert OptDescriptionOrder[1..] == [DescripcionCorta, SinCTA, SinHashtags, SinPregunta];
  }

  lemma Mvp3DescriptionOrdered(desc: string)
    ensures SubseqOf(Mvp3Description(desc), Mvp3DescriptionOrder)
  {
    if IsBlank(desc) {
      MissingFirst(Mvp3DescriptionOrder);
    } else {
      Mvp3PresentDescriptionOrdered(desc);
      PresentFirst(Mvp3Description(desc), Mvp3DescriptionOrder);
    }
  }

  lemma Mvp3PresentDescriptionOrdered(desc: string)
    requires !IsBlank(desc)
    ensures SubseqOf(Mvp3Description(desc), Mvp3DescriptionOrder[1..])
  {
    Ordered4(|Strip(desc)| < 150, DescripcionCorta, HasCta(desc), IncluyeCTA, !HasCta(desc), SinCTA,
               !HasQuestion(desc), SinPregunta);
    assert Mvp3DescriptionOrder[1..] == [DescripcionCorta, IncluyeCTA, SinCTA, SinPregunta];
  }

  lemma ExtrasOrdered(detail: VideoDetail, title: string)
    ensures SubseqOf(Extras(detail, title), ExtrasOrder)
  {
    Ordered2(!HasPlaylist(detail.playlistTitle), SinPlaylist, LacksKeywords(title, detail.description), SinKeywords);
  }

  // ---------------------------------------------------------------------------------------
  // The whole gap list of one video

  function TitleRules(v: Variant, title: string): seq<Gap>
  {
    match v
    case App => AppTitle(title)
    case Gradio => AppTitle(title)
    case YoutubeOpt => OptTitle(title)
    case Mvp3 => Mvp3Title(title)
  }

  function DescriptionRules(v: Variant, desc: string): seq<Gap>
  {
    match v
    case App => AppDescription(desc)
    case Gradio => AppDescription(desc)
    case YoutubeOpt => OptDescription(desc)
    case Mvp3 => Mvp3Description(desc)
  }

  /** The order in which a variant emits its labels. */
  function EmissionOrder(v: Variant): seq<Gap>
  {
    match v
    case App => AppOrder
    case Gradio => AppOrder
    case YoutubeOpt => OptOrder
    case Mvp3 => Mvp3Order
  }

  /** Three lists, each in order against its part of a distinct order, make an ordered, distinct whole. */
  lemma ThreePartsOrdered(t: seq<Gap>, d: seq<Gap>, x: seq<Gap>, o1: seq<Gap>, o2: seq<Gap>, o3: seq<Gap>)
    requires Distinct(o1 + o2 + o3)
    requires SubseqOf(t, o1) && SubseqOf(d, o2) && SubseqOf(x, o3)
    ensures SubseqOf(t + d + x, o1 + o2 + o3) && Distinct(t + d + x)
  {
    SubseqConcat(t, o1, d, o2);
    SubseqConcat(t + d, o1 + o2, x, o3);
    SubseqDistinct(t + d + x, o1 + o2 + o3);
  }

  /** The position of a label in the longest emission order; every variant's order is increasing in it. */
  function Rank(g: Gap): nat
  {
    match g
    case TituloLargo => 0
    case IncluyeIA => 1
    case IncluyeFreeGratis => 2
    case UsaEmoji => 3
    case SinEmojis => 4
    case SinNumeros => 5
    case MetadescripcionAusente => 6
    case DescripcionCorta => 7
    case IncluyeCTA => 8
    case SinCTA => 9
    case SinHashtags => 10
    case SinPregunta => 11
    case SinPlaylist => 12
    case SinKeywords => 13
  }

  predicate Increasing(o: seq<Gap>)
  {
    forall i :: 0 < i < |o| ==> Rank(o[i - 1]) < Rank(o[i])
  }

  lemma {:induction false} IncreasingApart(o: seq<Gap>, i: nat, j: nat)
    requires Increasing(o) && i < j < |o|
    ensures Rank(o[i]) < Rank(o[j])
    decreases j - i
  {
    if i + 1 < j {
      IncreasingApart(o, i + 1, j);
    }
  }

  lemma IncreasingDistinct(o: seq<Gap>)
    requires Increasing(o)
    ensures Distinct(o)
  {
    forall i, j | 0 <= i < j < |o|
      ensures o[i] != o[j]
    {
      IncreasingApart(o, i, j);
    }
  }

  lemma {:induction false} IncreasingAppend(a: seq<Gap>, b: seq<Gap>)
    requires Increasing(a) && Increasing(b)
    requires a != [] && b != [] ==> Rank(a[|a| - 1]) < Rank(b[0])
    ensures Increasing(a + b)
  {
    var s := a + b;
    forall i | 0 < i < |s|
      ensures Rank(s[i - 1]) < Rank(s[i])
    {
      if i < |a| {
        assert s[i - 1] == a[i - 1] && s[i] == a[i];
      } else if i == |a| {
        assert s[i - 1] == a[|a| - 1] && s[i] == b[0];
      } else {
        assert s[i - 1] == b[i - 1 - |a|] && s[i] == b[i - |a|];
      }
    }
  }

  lemma EmissionOrderDistinct(v: Variant)
    ensures Distinct(EmissionOrder(v))
  {
    var (t, d) := match v
      case YoutubeOpt => (OptTitleOrder, OptDescriptionOrder)
      case Mvp3 => (Mvp3TitleOrder, Mvp3DescriptionOrder)
      case _ => (AppTitleOrder, AppDescriptionOrder);
    assert Increasing(t) && Increasing(d) && Increasing(ExtrasOrder);
    IncreasingAppend(t, d);
    IncreasingAppend(t + d, ExtrasOrder);
    assert EmissionOrder(v) == t + d + ExtrasOrder;
    IncreasingDistinct(EmissionOrder(v));
  }

  /** The three rule lists of one video, concatenated, follow the variant's emission order without repeats. */
  lemma PartsOrdered(v: Variant, title: string, detail: VideoDetail)
    ensures SubseqOf(TitleRules(v, title) + DescriptionRules(v, detail.description) + Extras(detail, title), EmissionOrder(v))
    ensures Distinct(TitleRules(v, title) + DescriptionRules(v, detail.description) + Extras(detail, title))
  {
    var t := TitleRules(v, title);
    var d := DescriptionRules(v, detail.description);
    var x := Extras(detail, title);
    EmissionOrderDistinct(v);
    ExtrasOrdered(detail, title);
    match v
    case App =>
      AppTitleOrdered(title);
      AppDescriptionOrdered(detail.description);
      ThreePartsOrdered(t, d, x, AppTitleOrder, AppDescriptionOrder, ExtrasOrder);
    case Gradio =>
      AppTitleOrdered(title);
      AppDescriptionOrdered(detail.description);
      ThreePartsOrdered(t, d, x, AppTitleOrder, AppDescriptionOrder, ExtrasOrder);
    case YoutubeOpt =>
      OptTitleOrdered(title);
      OptDescriptionOrdered(detail.description);
      ThreePartsOrdered(t, d, x, OptTitleOrder, OptDescriptionOrder, ExtrasOrder);
    case Mvp3 =>
      Mvp3TitleOrdered(title);
      Mvp3DescriptionOrdered(detail.description);
      ThreePartsOrdered(t, d, x, Mvp3TitleOrder, Mvp3DescriptionOrder, ExtrasOrder);
  }

  /** `titulo_checks + desc_checks + extras_checks`: the labels of one video, in emission order, each at most once. */
  function Evaluate(v: Variant, title: string, detail: VideoDetail): (r: seq<Gap>)
    ensures SubseqOf(r, EmissionOrder(v))
    ensures Distinct(r)
  {
    PartsOrdered(v, title, detail);
    TitleRules(v, title) + DescriptionRules(v, detail.description) + Extras(detail, title)
  }

  // ---------------------------------------------------------------------------------------
  // Consequences of the rule sets

  /** A description mentioning "comenta" satisfies both the CTA rule and the question rule. */
  lemma ComentaSatisfiesBoth(v: Variant, desc: string)
    requires Contains(Lower(desc), "comenta") && !IsBlank(desc)
    ensures SinCTA !in DescriptionRules(v, desc)
    ensures SinPregunta !in DescriptionRules(v, desc)
  {
    assert Ctas[2] == "comenta";
    assert Questions[2] == "comenta";
  }

  /** The keyword label needs a long description, so it never comes with "Descripción corta" or "Metadescripción ausente". */
  lemma KeywordsExcludeShortOrMissing(v: Variant, title: string, detail: VideoDetail)
    requires SinKeywords in Extras(detail, title)
    ensures DescripcionCorta !in DescriptionRules(v, detail.description)
    ensures MetadescripcionAusente !in DescriptionRules(v, detail.description)
  {
  }

  /** In Youtube_MVP3.py the CTA labels come only from the description and the emoji labels only from the title. */
  lemma Mvp3PartLabels(title: string, detail: VideoDetail)
    ensures IncluyeCTA !in Mvp3Title(title) && SinCTA !in Mvp3Title(title)
    ensures UsaEmoji !in Mvp3Description(detail.description) && SinEmojis !in Mvp3Description(detail.description)
    ensures UsaEmoji !in Extras(detail, title) && SinEmojis !in Extras(detail, title)
    ensures IncluyeCTA !in Extras(detail, title) && SinCTA !in Extras(detail, title)
  {
    Mvp3TitleLabels(title);
    Mvp3DescriptionLabels(detail.description);
    ExtrasLabels(detail, title);
  }

  lemma Mvp3TitleLabels(title: string)
    ensures IncluyeCTA !in Mvp3Title(title) && SinCTA !in Mvp3Title(title)
  {
    Mvp3TitleOrdered(title);
    SubseqMembers(Mvp3Title(title), Mvp3TitleOrder);
  }

  lemma Mvp3DescriptionLabels(desc: string)
    ensures UsaEmoji !in Mvp3Description(desc) && SinEmojis !in Mvp3Description(desc)
  {
    Mvp3DescriptionOrdered(desc);
    SubseqMembers(Mvp3Description(desc), Mvp3DescriptionOrder);
  }

  lemma ExtrasLabels(detail: VideoDetail, title: string)
    ensures forall g :: g in Extras(detail, title) ==> g == SinPlaylist || g == SinKeywords
  {
    ExtrasOrdered(detail, title);
    SubseqMembers(Extras(detail, title), ExtrasOrder);
  }

  /** Youtube_MVP3.py emits exactly one of "Usa emoji" and "Sin emojis en título", so every video there has a label. */
  lemma Mvp3AlwaysLabelled(title: string, detail: VideoDetail)
    ensures (UsaEmoji in Evaluate(Mvp3, title, detail)) != (SinEmojis in Evaluate(Mvp3, title, detail))
    ensures Evaluate(Mvp3, title, detail) != []
  {
    var t := Mvp3Title(title);
    var d := Mvp3Description(detail.description);
    var x := Extras(detail, title);
    Mvp3PartLabels(title, detail);
    assert TitleRules(Mvp3, title) == t && DescriptionRules(Mvp3, detail.description) == d;
    InFront(UsaEmoji, t, d, x);
    InFront(SinEmojis, t, d, x);
  }

  /** Youtube_MVP3.py emits exactly one of "Incluye CTA" and "Sin CTA" for a present description. */
  lemma Mvp3OneCtaLabel(title: string, detail: VideoDetail)
    requires !IsBlank(detail.description)
    ensures (IncluyeCTA in Evaluate(Mvp3, title, detail)) != (SinCTA in Evaluate(Mvp3, title, detail))
  {
    var t := Mvp3Title(title);
    var d := Mvp3Description(detail.description);
    var x := Extras(detail, title);
    Mvp3PartLabels(title, detail);
    assert TitleRules(Mvp3, title) == t && DescriptionRules(Mvp3, detail.description) == d;
    InMiddle(IncluyeCTA, t, d, x);
    InMiddle(SinCTA, t, d, x);
  }

  /** At most 8 of the 10 labels of app.py can hit one video: the short and keyword rules exclude each other. */
  lemma AppGapsPerVideo(title: string, detail: VideoDetail)
    ensures |Evaluate(App, title, detail)| <= 8
  {
    var desc := detail.description;
    assert |AppTitle(title)| <= 4;
    if IsBlank(desc) {
      assert !LacksKeywords(title, desc);
    } else if |Strip(desc)| < 150 {
      assert !LacksKeywords(title, desc);
    } else {
      assert |AppDescription(desc)| <= 2;
    }
  }

  /** At most 10 of the 12 labels of youtube_opt.py can hit one video. */
  lemma OptGapsPerVideo(title: string, detail: VideoDetail)
    ensures |Evaluate(YoutubeOpt, title, detail)| <= 10
  {
    var desc := detail.description;
    assert |OptTitle(title)| <= 5;
    if IsBlank(desc) {
      assert !LacksKeywords(title, desc);
    } else if |Strip(desc)| < 150 {
      assert !LacksKeywords(title, desc);
    } else {
      assert |OptDescription(desc)| <= 3;
    }
  }

  /** Every label app.py and gradio_app.py can emit is a key of their 10-entry `gap_info`. */
  lemma AppLabelsInCatalog(v: Variant, title: string, detail: VideoDetail)
    requires v == App || v == Gradio
    ensures forall g :: g in Evaluate(v, title, detail) ==> g in Keys(AppCatalog)
  {
    var r := Evaluate(v, title, detail);
    assert SubseqOf(r, AppOrder);
    SubseqMembers(r, AppOrder);
    AppOrderCatalogued();
  }

  /** Every label the application can emit has a catalog entry. */
  lemma AppOrderCatalogued()
    ensures forall g :: g in AppOrder ==> g in Keys(AppCatalog)
  {
    forall g | g in AppOrder
      ensures g in Keys(AppCatalog)
    {
      assert g in AppTitleOrder || g in AppDescriptionOrder || g in ExtrasOrder;
      AppCatalogKeys(g);
    }
  }
}
