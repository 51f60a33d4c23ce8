/**
 * What the front ends derive from `gaps_count` once the per-video loop is
 * done: the "top 3" list (`gaps_prioritarios`), the per-gap summary and, in
 * app.py and gradio_app.py, the priority matrix (`matriz`). Every one of them
 * is a list built in dictionary order and then put through a stable sort.
 */
module Ranking {
  import opened Wrappers
  import opened Gaps
  import opened Sorting
  import opened Channel

  // ---------------------------------------------------------------------------------------
  // Catalogue lookups

  /**
   * `eur_num`: the amount after '€' in the gap's `estimado_mensual`. A gap
   * without an entry falls back to "€0/mes" (top 3, `sorting_key`) or "?"
   * (matrix); both read as 0, see `DefaultsReadZero`.
   */
  function Euros(c: Catalog, g: Gap): nat
  {
    match Find(c, g)
    case Some(info) => (match info.estimadoMensual case Some(e) => EuroAmount(e) case None => 0)
    case None => 0
  }

  /** The two fallback strings carry no amount. */
  lemma DefaultsReadZero()
    ensures EuroAmount("€0/mes") == 0
    ensures EuroAmount("?") == 0
  {
    assert Decimal(0) == "0";
    assert MonthlyEstimate(0) == "€0/mes";
    EuroAmountOfEstimate(0);
  }

  /** `info.get('esfuerzo')`: None where the matrix shows '?'. */
  function Effort(c: Catalog, g: Gap): Option<int>
  {
    match Find(c, g)
    case Some(info) => info.esfuerzo
    case None => None
  }

  /** Every entry has a positive weight. */
  predicate PositiveWeights(c: Catalog)
  {
    forall k :: 0 <= k < |c| ==> c[k].1.peso > 0
  }

  /** Every entry has an effort, below the fallback 999. */
  predicate EffortsBelow999(c: Catalog)
  {
    forall k :: 0 <= k < |c| ==> c[k].1.esfuerzo.Some? && c[k].1.esfuerzo.value < 999
  }

  lemma AppCatalogShape()
    ensures PositiveWeights(AppCatalog) && EffortsBelow999(AppCatalog)
  {
    forall k | 0 <= k < |AppCatalog|
      ensures AppCatalog[k].1.peso > 0 && AppCatalog[k].1.esfuerzo.Some? && AppCatalog[k].1.esfuerzo.value < 999
    {
      if k < 5 {
        if k == 0 {} else if k == 1 {} else if k == 2 {} else if k == 3 {} else {}
      } else {
        if k == 5 {} else if k == 6 {} else if k == 7 {} else if k == 8 {} else {}
      }
    }
  }

  lemma OptCatalogShape()
    ensures PositiveWeights(OptCatalog)
  {
    forall k | 0 <= k < |OptCatalog|
      ensures OptCatalog[k].1.peso > 0
    {
      if k == 0 {} else if k == 1 {} else if k == 2 {} else if k == 3 {} else if k == 4 {} else if k == 5 {} else {}
    }
  }

  lemma Mvp3CatalogShape()
    ensures PositiveWeights(Mvp3Catalog)
  {
    forall k | 0 <= k < |Mvp3Catalog|
      ensures Mvp3Catalog[k].1.peso > 0
    {
      if k == 0 {} else if k == 1 {} else if k == 2 {} else if k == 3 {} else {}
    }
  }

  lemma EffortOfCatalogued(c: Catalog, g: Gap)
    requires EffortsBelow999(c)
    ensures Effort(c, g).Some? <==> g in Keys(c)
    ensures Effort(c, g).Some? ==> Effort(c, g).value < 999
  {
    if g in Keys(c) {
      var i :| 0 <= i < |c| && c[i] == (g, Find(c, g).value);
    }
  }

  lemma WeightOfCatalogued(c: Catalog, g: Gap)
    requires PositiveWeights(c)
    ensures Peso(c, g) > 0 <==> g in Keys(c)
  {
    if g in Keys(c) {
      var i :| 0 <= i < |c| && c[i] == (g, Find(c, g).value);
    }
  }

  /** Every entry of app.py's catalogue has an effort, and it is below the fallback 999. */
  lemma AppCatalogEfforts(g: Gap)
    ensures Effort(AppCatalog, g).Some? <==> g in Keys(AppCatalog)
    ensures Effort(AppCatalog, g).Some? ==> Effort(AppCatalog, g).value < 999
  {
    AppCatalogShape();
    EffortOfCatalogued(AppCatalog, g);
  }

  lemma OptCatalogKeys(g: Gap)
    ensures g in Keys(OptCatalog) <==> g in {SinPlaylist, DescripcionCorta, TituloLargo, SinCTA, SinHashtags, SinPregunta, SinKeywords}
  {
    match g
    case SinPlaylist => assert OptCatalog[0].0 == g;
    case DescripcionCorta => assert OptCatalog[1].0 == g;
    case TituloLargo => assert OptCatalog[2].0 == g;
    case SinCTA => assert OptCatalog[3].0 == g;
    case SinHashtags => assert OptCatalog[4].0 == g;
    case SinPregunta => assert OptCatalog[5].0 == g;
    case SinKeywords => assert OptCatalog[6].0 == g;
    case _ =>
  }

  lemma Mvp3CatalogKeys(g: Gap)
    ensures g in Keys(Mvp3Catalog) <==> g in {SinPlaylist, DescripcionCorta, TituloLargo, SinCTA, SinPregunta}
  {
    match g
    case SinPlaylist => assert Mvp3Catalog[0].0 == g;
    case DescripcionCorta => assert Mvp3Catalog[1].0 == g;
    case TituloLargo => assert Mvp3Catalog[2].0 == g;
    case SinCTA => assert Mvp3Catalog[3].0 == g;
    case SinPregunta => assert Mvp3Catalog[4].0 == g;
    case _ =>
  }

  /** Every weight in the three catalogues is positive: a gap has weight exactly when it is catalogued. */
  lemma CataloguedWeightPositive(v: Variant, g: Gap)
    ensures Peso(CatalogOf(v), g) > 0 <==> g in Keys(CatalogOf(v))
  {
    match v {
      case App => AppCatalogShape();
      case Gradio => AppCatalogShape();
      case YoutubeOpt => OptCatalogShape();
      case Mvp3 => Mvp3CatalogShape();
    }
    WeightOfCatalogued(CatalogOf(v), g);
  }

  // ---------------------------------------------------------------------------------------
  // The top 3

  /** One element of `gaps_prioritarios`. */
  datatype Ranked = Ranked(gap: Gap, count: nat, impact: int)

  function ImpactKey(x: Ranked): Key
  {
    (x.impact, 0)
  }

  /** app.py's candidate for one `gaps_count` item: every gap, weighted by its euro amount. */
  function EuroCandidate(c: Catalog, e: (Gap, nat)): Ranked
  {
    Ranked(e.0, e.1, e.1 * Euros(c, e.0))
  }

  /** app.py's `gaps_prioritarios` before sorting. */
  function EuroCandidates(c: Catalog, counts: Counts): seq<Ranked>
  {
    if counts == [] then []
    else EuroCandidates(c, counts[..|counts| - 1]) + [EuroCandidate(c, counts[|counts| - 1])]
  }

  /**
   * youtube_opt.py's and Youtube_MVP3.py's `gaps_prioritarios` before
   * sorting: only gaps with `peso > 0`, weighted by it.
   */
  function WeightCandidates(c: Catalog, counts: Counts): seq<Ranked>
  {
    if counts == [] then []
    else
      var e := counts[|counts| - 1];
      WeightCandidates(c, counts[..|counts| - 1])
        + (if Peso(c, e.0) > 0 then [Ranked(e.0, e.1, e.1 * Peso(c, e.0))] else [])
  }

  /** Every gap of `gaps_count` is a candidate in app.py, in dictionary order, with impact count × euros. */
  lemma {:induction false} EuroCandidatesSpec(c: Catalog, counts: Counts)
    ensures |EuroCandidates(c, counts)| == |counts|
    ensures forall i :: 0 <= i < |counts| ==> EuroCandidates(c, counts)[i] == EuroCandidate(c, counts[i])
    decreases |counts|
  {
    if counts != [] {
      var init := counts[..|counts| - 1];
      EuroCandidatesSpec(c, init);
      assert forall i :: 0 <= i < |init| ==> init[i] == counts[i];
    }
  }

  /** The weighted candidates are exactly the items whose weight is positive. */
  lemma {:induction false} WeightCandidatesSpec(c: Catalog, counts: Counts)
    ensures |WeightCandidates(c, counts)| <= |counts|
    ensures forall x :: x in WeightCandidates(c, counts) <==>
      (x.gap, x.count) in counts && Peso(c, x.gap) > 0 && x.impact == x.count * Peso(c, x.gap)
    decreases |counts|
  {
    if counts != [] {
      var init := counts[..|counts| - 1];
      WeightCandidatesSpec(c, init);
      assert counts == init + [counts[|counts| - 1]];
      assert forall e :: e in counts <==> e in init || e == counts[|counts| - 1];
    }
  }

  /** The positions in `counts` of the items whose weight is positive, in dictionary order. */
  function WeightedIndices(c: Catalog, counts: Counts): seq<nat>
  {
    if counts == [] then []
    else
      WeightedIndices(c, counts[..|counts| - 1])
        + (if Peso(c, counts[|counts| - 1].0) > 0 then [|counts| - 1] else [])
  }

  /**
   * `r` holds, for each position of `idx`, that item of `counts` weighted
   * by its `peso`; the positions rise strictly and are exactly those of the
   * items with positive weight.
   */
  predicate WeightedAt(c: Catalog, counts: Counts, r: seq<Ranked>, idx: seq<nat>)
  {
    |idx| == |r| &&
    (forall k :: 0 <= k < |idx| ==>
       idx[k] < |counts| &&
       r[k] == Ranked(counts[idx[k]].0, counts[idx[k]].1, counts[idx[k]].1 * Peso(c, counts[idx[k]].0))) &&
    (forall k, l :: 0 <= k < l < |idx| ==> idx[k] < idx[l]) &&
    (forall i :: 0 <= i < |counts| ==> (i in idx <==> Peso(c, counts[i].0) > 0))
  }

  /** The weighted candidates are the positively weighted items, each once, in dictionary order. */
  lemma {:induction false} WeightCandidatesOrder(c: Catalog, counts: Counts)
    ensures WeightedAt(c, counts, WeightCandidates(c, counts), WeightedIndices(c, counts))
    decreases |counts|
  {
    if counts != [] {
      var init := counts[..|counts| - 1];
      WeightCandidatesOrder(c, init);
      var idx0 := WeightedIndices(c, init);
      forall k | 0 <= k < |idx0| ensures idx0[k] < |init| && counts[idx0[k]] == init[idx0[k]] {
      }
      forall i | 0 <= i < |init| ensures counts[i] == init[i] {
      }
    }
  }

  /** youtube_opt.py never ranks the five labels its catalogue lacks. */
  lemma OptNeverRanked(counts: Counts, x: Ranked)
    requires x in WeightCandidates(OptCatalog, counts)
    ensures !(x.gap.IncluyeIA? || x.gap.IncluyeFreeGratis? || x.gap.SinEmojis? || x.gap.SinNumeros? || x.gap.MetadescripcionAusente?)
  {
    WeightCandidatesSpec(OptCatalog, counts);
    CataloguedWeightPositive(YoutubeOpt, x.gap);
    OptCatalogKeys(x.gap);
  }

  /** Youtube_MVP3.py counts "Usa emoji" and "Incluye CTA" but never ranks them, nor any other uncatalogued label. */
  lemma Mvp3NeverRanked(counts: Counts, x: Ranked)
    requires x in WeightCandidates(Mvp3Catalog, counts)
    ensures x.gap in {SinPlaylist, DescripcionCorta, TituloLargo, SinCTA, SinPregunta}
  {
    WeightCandidatesSpec(Mvp3Catalog, counts);
    CataloguedWeightPositive(Mvp3, x.gap);
    Mvp3CatalogKeys(x.gap);
  }

  /** `gaps_prioritarios.sort(key=impacto, reverse=True)` then `[:3]`. */
  function TopThree(candidates: seq<Ranked>): seq<Ranked>
  {
    Top3(SortDesc(candidates, ImpactKey))
  }

  /**
   * The top three have the highest impacts: they are in non-increasing order,
   * there are min(3, n) of them, they are drawn from the candidates, each is
   * at least every candidate left out, and among candidates of equal impact
   * the ones kept are the first in dictionary order, in that order.
   */
  lemma TopThreeSpec(candidates: seq<Ranked>)
    ensures |TopThree(candidates)| == if |candidates| < 3 then |candidates| else 3
    ensures forall i, j :: 0 <= i < j < |TopThree(candidates)| ==> TopThree(candidates)[i].impact >= TopThree(candidates)[j].impact
    ensures forall x :: x in multiset(TopThree(candidates)) ==> x in multiset(candidates)
    ensures multiset(TopThree(candidates)) <= multiset(candidates)
    ensures forall x, y :: x in TopThree(candidates) && y in multiset(candidates) - multiset(TopThree(candidates)) ==>
      x.impact >= y.impact
    ensures forall k :: Select(TopThree(candidates), ImpactKey, k) <= Select(candidates, ImpactKey, k)
    ensures forall i, j :: 0 <= i < |TopThree(candidates)| <= j < |candidates| ==>
      SortDesc(candidates, ImpactKey)[i].impact >= SortDesc(candidates, ImpactKey)[j].impact
    ensures forall k :: Select(SortDesc(candidates, ImpactKey), ImpactKey, k) == Select(candidates, ImpactKey, k)
  {
    TopThreeOrdered(candidates);
    TopThreeDrawn(candidates);
    TopThreeDominates(candidates);
    var s := SortDesc(candidates, ImpactKey);
    forall k
      ensures Select(s, ImpactKey, k) == Select(candidates, ImpactKey, k)
      ensures Select(TopThree(candidates), ImpactKey, k) <= Select(candidates, ImpactKey, k)
    {
      SortDescStable(candidates, ImpactKey, k);
      SelectPrefix(s, |TopThree(candidates)|, ImpactKey, k);
    }
  }

  /** Every one of the top three is at least every candidate left out of them. */
  lemma TopThreeDominates(candidates: seq<Ranked>)
    ensures multiset(TopThree(candidates)) <= multiset(candidates)
    ensures forall x, y :: x in TopThree(candidates) && y in multiset(candidates) - multiset(TopThree(candidates)) ==>
      x.impact >= y.impact
  {
    var s := SortDesc(candidates, ImpactKey);
    TopThreeOrdered(candidates);
    PrefixDominates(s, |TopThree(candidates)|);
  }

  /** In a list whose first `m` elements are at least all later ones, they are at least all the others. */
  lemma PrefixDominates(s: seq<Ranked>, m: nat)
    requires m <= |s|
    requires forall i, j :: 0 <= i < m <= j < |s| ==> s[i].impact >= s[j].impact
    ensures multiset(s[..m]) <= multiset(s)
    ensures forall x, y :: x in s[..m] && y in multiset(s) - multiset(s[..m]) ==> x.impact >= y.impact
  {
    assert s == s[..m] + s[m..];
    assert multiset(s) == multiset(s[..m]) + multiset(s[m..]);
    forall x, y | x in s[..m] && y in multiset(s) - multiset(s[..m])
      ensures x.impact >= y.impact
    {
      var i :| 0 <= i < m && s[..m][i] == x;
      assert y in s[m..];
      var j :| m <= j < |s| && s[j] == y;
      assert s[i] == x;
    }
  }

  lemma TopThreeOrdered(candidates: seq<Ranked>)
    ensures forall i, j :: 0 <= i < j < |TopThree(candidates)| ==> TopThree(candidates)[i].impact >= TopThree(candidates)[j].impact
    ensures forall i, j :: 0 <= i < |TopThree(candidates)| <= j < |candidates| ==>
      SortDesc(candidates, ImpactKey)[i].impact >= SortDesc(candidates, ImpactKey)[j].impact
  {
    var s := SortDesc(candidates, ImpactKey);
    SortDescSorted(candidates, ImpactKey);
    TopDominates(s, ImpactKey);
  }

  lemma TopThreeDrawn(candidates: seq<Ranked>)
    ensures forall x :: x in multiset(TopThree(candidates)) ==> x in multiset(candidates)
  {
    var s := SortDesc(candidates, ImpactKey);
    var t := TopThree(candidates);
    assert s == t + s[|t|..];
    assert multiset(s) == multiset(t) + multiset(s[|t|..]);
  }

  /** The loop that fills `gaps_prioritarios` in app.py, then the sort and the slice. */
  method RankByEuros(c: Catalog, counts: Counts) returns (top: seq<Ranked>)
    ensures top == TopThree(EuroCandidates(c, counts))
  {
    var candidates := [];
    var i := 0;
    while i < |counts|
      invariant 0 <= i <= |counts|
      invariant candidates == EuroCandidates(c, counts[..i])
    {
      assert counts[..i + 1][..i] == counts[..i];
      candidates := candidates + [EuroCandidate(c, counts[i])];
      i := i + 1;
    }
    assert counts[..i] == counts;
    top := TopThree(candidates);
  }

  /** The loop that fills `gaps_prioritarios` in youtube_opt.py and Youtube_MVP3.py, then the sort and the slice. */
  method RankByWeight(c: Catalog, counts: Counts) returns (top: seq<Ranked>)
    ensures top == TopThree(WeightCandidates(c, counts))
  {
    var candidates := [];
    var i := 0;
    while i < |counts|
      invariant 0 <= i <= |counts|
      invariant candidates == WeightCandidates(c, counts[..i])
    {
      assert counts[..i + 1][..i] == counts[..i];
      var (gap, count) := counts[i];
      var peso := Peso(c, gap);
      if peso > 0 {
        candidates := candidates + [Ranked(gap, count, count * peso)];
      }
      i := i + 1;
    }
    assert counts[..i] == counts;
    top := TopThree(candidates);
  }

  // ---------------------------------------------------------------------------------------
  // Summaries

  /** app.py's `sorting_key` over catalogue `c`: (effort, minus euros), with effort 999 where the catalogue has none. */
  function SortingKey(c: Catalog, g: Gap): (int, int)
  {
    var effort := match Effort(c, g) case Some(e) => e case None => 999;
    (effort, -(Euros(c, g) as int))
  }

  /** A gap missing from app.py's catalogue sorts as (999, 0), after every catalogued gap. */
  lemma SortingKeyUncatalogued(g: Gap)
    ensures g !in Keys(AppCatalog) ==> SortingKey(AppCatalog, g) == (999, 0)
    ensures g in Keys(AppCatalog) ==> SortingKey(AppCatalog, g).0 < 999
  {
    SortingKeyOf(AppCatalog, g);
    AppCatalogEfforts(g);
  }

  lemma SortingKeyOf(c: Catalog, g: Gap)
    ensures g !in Keys(c) ==> SortingKey(c, g) == (999, 0)
    ensures Effort(c, g).Some? ==> SortingKey(c, g).0 == Effort(c, g).value
  {
  }

  /** Ascending on `sorting_key` is descending on its negation. */
  function SummaryKey(e: (Gap, nat)): Key
  {
    (-SortingKey(AppCatalog, e.0).0, -SortingKey(AppCatalog, e.0).1)
  }

  /** Python's tuple `<=`. */
  predicate LexLe(a: (int, int), b: (int, int))
  {
    a.0 < b.0 || (a.0 == b.0 && a.1 <= b.1)
  }

  /** `sorted(gaps_count.items(), key=lambda x: sorting_key(x[0]))`. */
  function AppSummary(counts: Counts): seq<(Gap, nat)>
  {
    SortDesc(counts, SummaryKey)
  }

  /** The summary lists every item once, in ascending `sorting_key`, ties in dictionary order. */
  lemma AppSummarySpec(counts: Counts)
    ensures multiset(AppSummary(counts)) == multiset(counts)
    ensures forall i, j :: 0 <= i < j < |AppSummary(counts)| ==>
      LexLe(SortingKey(AppCatalog, AppSummary(counts)[i].0), SortingKey(AppCatalog, AppSummary(counts)[j].0))
    ensures forall k :: Select(AppSummary(counts), SummaryKey, k) == Select(counts, SummaryKey, k)
  {
    SortDescSorted(counts, SummaryKey);
    forall k
      ensures Select(AppSummary(counts), SummaryKey, k) == Select(counts, SummaryKey, k)
    {
      SortDescStable(counts, SummaryKey, k);
    }
  }

  function CountKey(e: (Gap, nat)): Key
  {
    (e.1, 0)
  }

  /** `sorted(gaps_count.items(), key=lambda x: x[1], reverse=True)`. */
  function CountSummary(counts: Counts): seq<(Gap, nat)>
  {
    SortDesc(counts, CountKey)
  }

  /** The summary lists every item once, by non-increasing count, ties in dictionary order. */
  lemma CountSummarySpec(counts: Counts)
    ensures multiset(CountSummary(counts)) == multiset(counts)
    ensures forall i, j :: 0 <= i < j < |CountSummary(counts)| ==> CountSummary(counts)[i].1 >= CountSummary(counts)[j].1
    ensures forall k :: Select(CountSummary(counts), CountKey, k) == Select(counts, CountKey, k)
  {
    SortDescSorted(counts, CountKey);
    forall k
      ensures Select(CountSummary(counts), CountKey, k) == Select(counts, CountKey, k)
    {
      SortDescStable(counts, CountKey, k);
    }
  }

  // ---------------------------------------------------------------------------------------
  // The priority matrix

  /** One row of `matriz`: `Esfuerzo (min)` is None where the table shows '?'. */
  datatype MatrixRow = MatrixRow(gap: Gap, veces: nat, esfuerzo: Option<int>, impacto: nat)

  function MatrixRowOf(c: Catalog, e: (Gap, nat)): MatrixRow
  {
    MatrixRow(e.0, e.1, Effort(c, e.0), Euros(c, e.0))
  }

  /** `matriz` before sorting: one row per `gaps_count` item, in dictionary order. */
  function MatrixRows(c: Catalog, counts: Counts): seq<MatrixRow>
  {
    if counts == [] then []
    else MatrixRows(c, counts[..|counts| - 1]) + [MatrixRowOf(c, counts[|counts| - 1])]
  }

  /** The loop that fills `matriz`. */
  method BuildMatrix(c: Catalog, counts: Counts) returns (rows: seq<MatrixRow>)
    ensures rows == MatrixRows(c, counts)
  {
    rows := [];
    var i := 0;
    while i < |counts|
      invariant 0 <= i <= |counts|
      invariant rows == MatrixRows(c, counts[..i])
    {
      assert counts[..i + 1][..i] == counts[..i];
      var (gap, count) := counts[i];
      var info := Find(c, gap);
      var esfuerzo := if info.Some? then info.value.esfuerzo else None;
      var eurNum := 0;
      if info.Some? && info.value.estimadoMensual.Some? {
        eurNum := EuroAmount(info.value.estimadoMensual.value);
      }
      rows := rows + [MatrixRow(gap, count, esfuerzo, eurNum)];
      i := i + 1;
    }
    assert counts[..i] == counts;
  }

  /** One row per distinct gap, with its count, effort and euro amount. */
  lemma {:induction false} MatrixRowsSpec(c: Catalog, counts: Counts)
    ensures |MatrixRows(c, counts)| == |counts|
    ensures forall i :: 0 <= i < |counts| ==> MatrixRows(c, counts)[i] == MatrixRowOf(c, counts[i])
    decreases |counts|
  {
    if counts != [] {
      var init := counts[..|counts| - 1];
      MatrixRowsSpec(c, init);
      assert forall i :: 0 <= i < |init| ==> init[i] == counts[i];
    }
  }

  /** Every effort is a number: the column sorts without mixing '?' and integers. */
  predicate Comparable(rows: seq<MatrixRow>)
  {
    forall i :: 0 <= i < |rows| ==> rows[i].esfuerzo.Some?
  }

  function EffortValue(r: MatrixRow): int
  {
    match r.esfuerzo case Some(e) => e case None => 0
  }

  /** `ascending=[True, False]` on (effort, impact) is descending on (minus effort, impact). */
  function MatrixKey(r: MatrixRow): Key
  {
    (-EffortValue(r), r.impacto)
  }

  /**
   * `sort_values(by=['Esfuerzo (min)', 'Impacto (€)'], ascending=[True, False])`
   * as it was evidently meant: an empty matrix stays empty.
   */
  function SortMatrix(rows: seq<MatrixRow>): seq<MatrixRow>
    requires Comparable(rows)
  {
    SortDesc(rows, MatrixKey)
  }

  /** The sorted matrix holds the same rows, by effort ascending and then impact descending, ties in dictionary order. */
  lemma SortMatrixSpec(rows: seq<MatrixRow>)
    requires Comparable(rows)
    ensures multiset(SortMatrix(rows)) == multiset(rows) && Comparable(SortMatrix(rows))
    ensures forall i, j :: 0 <= i < j < |SortMatrix(rows)| ==>
      var a, b := SortMatrix(rows)[i], SortMatrix(rows)[j];
      a.esfuerzo.value < b.esfuerzo.value || (a.esfuerzo.value == b.esfuerzo.value && a.impacto >= b.impacto)
    ensures forall k :: Select(SortMatrix(rows), MatrixKey, k) == Select(rows, MatrixKey, k)
  {
    var s := SortMatrix(rows);
    SortDescSorted(rows, MatrixKey);
    forall i | 0 <= i < |s|
      ensures s[i].esfuerzo.Some?
    {
      assert s[i] in multiset(rows);
    }
    forall k
      ensures Select(s, MatrixKey, k) == Select(rows, MatrixKey, k)
    {
      SortDescStable(rows, MatrixKey, k);
    }
  }

  /** The sort as written: pandas raises KeyError on a matrix built from no rows, since it has no columns. */
  function SortMatrixAsWritten(rows: seq<MatrixRow>): (r: Option<seq<MatrixRow>>)
    requires Comparable(rows)
    ensures r.None? <==> rows == []
  {
    if rows == [] then None else Some(SortMatrix(rows))
  }

  /** Counts whose keys are all catalogued in app.py give a matrix with every effort defined. */
  lemma {:induction false} CataloguedMatrixComparable(counts: Counts)
    requires KeysOf(counts) <= Keys(AppCatalog)
    ensures Comparable(MatrixRows(AppCatalog, counts))
    decreases |counts|
  {
    if counts != [] {
      var init := counts[..|counts| - 1];
      assert KeysOf(counts) == KeysOf(init) + {counts[|counts| - 1].0} by {
        KeysOfSnoc(init, counts[|counts| - 1]);
        assert counts == init + [counts[|counts| - 1]];
      }
      CataloguedMatrixComparable(init);
      AppCatalogEfforts(counts[|counts| - 1].0);
    }
  }

  lemma {:induction false} KeysOfSnoc(c: Counts, e: (Gap, nat))
    ensures KeysOf(c + [e]) == KeysOf(c) + {e.0}
    decreases |c|
  {
    if c == [] {
      assert [e][1..] == [];
    } else {
      assert (c + [e])[1..] == c[1..] + [e];
      KeysOfSnoc(c[1..], e);
    }
  }
}
