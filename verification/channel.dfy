/**
 * The per-video loop shared by the four front ends: every listed video with an
 * id has its detail fetched, is run through the variant's rules, is added to
 * `videos_report`, and each of its labels bumps `gaps_count`. The Python
 * dictionary keeps its keys in insertion order, which later decides how ties
 * are broken, so it is modelled as an association list.
 */
module Channel {
  import opened Wrappers
  import opened Gaps
  import opened Listing
  import opened Rules

  /** One row of `videos_report`. */
  datatype VideoReport = VideoReport(title: string, url: string, gaps: seq<Gap>)

  /**
   * The downloader's detail call for one video URL: None when it returns
   * nothing (or, in youtube_opt.py and Youtube_MVP3.py, raises).
   */
  type DetailFetcher = string -> Option<VideoDetail>

  const WatchPrefix: string := "https://www.youtube.com/watch?v="

  function VideoUrl(id: string): string
  {
    WatchPrefix + id
  }

  /** The outcome of one loop iteration: no report when the id is empty or the detail fetch yields nothing. */
  function ReportOf(v: Variant, e: Entry, fetch: DetailFetcher): Option<VideoReport>
  {
    if e.id == [] then None
    else
      match fetch(VideoUrl(e.id))
      case None => None
      case Some(detail) => Some(VideoReport(e.title, VideoUrl(e.id), Evaluate(v, e.title, detail)))
  }

  /** `videos_report` after the loop has seen `es`. */
  function Reports(v: Variant, es: seq<Entry>, fetch: DetailFetcher): seq<VideoReport>
  {
    if es == [] then []
    else
      var prev := Reports(v, es[..|es| - 1], fetch);
      match ReportOf(v, es[|es| - 1], fetch)
      case None => prev
      case Some(r) => prev + [r]
  }

  /** One more entry adds its report, if it yields one, at the end. */
  lemma ReportsStep(v: Variant, es: seq<Entry>, i: nat, fetch: DetailFetcher)
    requires i < |es|
    ensures Reports(v, es[..i + 1], fetch)
         == Reports(v, es[..i], fetch) + (match ReportOf(v, es[i], fetch) case None => [] case Some(r) => [r])
  {
    assert es[..i + 1][..i] == es[..i];
  }

  // ---------------------------------------------------------------------------------------
  // gaps_count

  /** `gaps_count` as its `items()`: keys in insertion order. */
  type Counts = seq<(Gap, nat)>

  /** `gaps_count.get(g, 0)`. */
  function Lookup(c: Counts, g: Gap): nat
  {
    if c == [] then 0
    else if c[0].0 == g then c[0].1
    else Lookup(c[1..], g)
  }

  /** The keys of `gaps_count`. */
  function KeysOf(c: Counts): set<Gap>
  {
    if c == [] then {} else {c[0].0} + KeysOf(c[1..])
  }

  /** No key is stored twice. */
  predicate DistinctKeys(c: Counts)
  {
    c == [] || (c[0].0 !in KeysOf(c[1..]) && DistinctKeys(c[1..]))
  }

  /** Every stored count is at least 1: a key is only ever created by an increment. */
  predicate Positive(c: Counts)
  {
    c == [] || (c[0].1 >= 1 && Positive(c[1..]))
  }

  /** With no key stored twice, there are as many keys as items. */
  lemma {:induction false} DistinctKeysCount(c: Counts)
    requires DistinctKeys(c)
    ensures |KeysOf(c)| == |c|
  {
    if c != [] {
      DistinctKeysCount(c[1..]);
    }
  }

  /** `sum(gaps_count.values())`. */
  function Sum(c: Counts): nat
  {
    if c == [] then 0 else c[0].1 + Sum(c[1..])
  }

  /**
   * `gaps_count[g] = gaps_count.get(g, 0) + 1`: an existing key keeps its
   * place, a new key goes last.
   */
  function Increment(c: Counts, g: Gap): (r: Counts)
    ensures |r| == if g in KeysOf(c) then |c| else |c| + 1
  {
    if c == [] then [(g, 1)]
    else if c[0].0 == g then [(g, c[0].1 + 1)] + c[1..]
    else [c[0]] + Increment(c[1..], g)
  }

  /** Incrementing `g` adds one to its count and to the total, and touches no other key. */
  lemma {:induction false} IncrementSpec(c: Counts, g: Gap)
    ensures Lookup(Increment(c, g), g) == Lookup(c, g) + 1
    ensures forall h :: h != g ==> Lookup(Increment(c, g), h) == Lookup(c, h)
    ensures KeysOf(Increment(c, g)) == KeysOf(c) + {g}
    ensures Sum(Increment(c, g)) == Sum(c) + 1
    ensures DistinctKeys(c) ==> DistinctKeys(Increment(c, g))
    ensures Positive(c) ==> Positive(Increment(c, g))
  {
    if c != [] {
      var r := Increment(c, g);
      if c[0].0 == g {
        assert r[1..] == c[1..];
      } else {
        IncrementSpec(c[1..], g);
        assert r[1..] == Increment(c[1..], g);
      }
    }
  }

  /** The keys of `c` in insertion order: the order in which `gaps_count` iterates them. */
  function KeyOrder(c: Counts): seq<Gap>
  {
    if c == [] then [] else [c[0].0] + KeyOrder(c[1..])
  }

  lemma {:induction false} KeyOrderKeys(c: Counts)
    ensures forall g :: g in KeyOrder(c) <==> g in KeysOf(c)
  {
    if c != [] {
      KeyOrderKeys(c[1..]);
    }
  }

  /**
   * Incrementing never moves a key: an existing key keeps its position, and
   * a new key is inserted with count 1 after all the others.
   */
  lemma {:induction false} IncrementOrder(c: Counts, g: Gap)
    ensures |Increment(c, g)| >= |c| && forall i :: 0 <= i < |c| ==> Increment(c, g)[i].0 == c[i].0
    ensures g !in KeysOf(c) ==> Increment(c, g) == c + [(g, 1)]
    ensures KeyOrder(Increment(c, g)) == if g in KeysOf(c) then KeyOrder(c) else KeyOrder(c) + [g]
  {
    if c != [] {
      var r := Increment(c, g);
      if c[0].0 == g {
        assert r[1..] == c[1..];
      } else {
        IncrementOrder(c[1..], g);
        assert r[1..] == Increment(c[1..], g);
        assert c == [c[0]] + c[1..];
        if g !in KeysOf(c) {
          assert r == [c[0]] + (c[1..] + [(g, 1)]);
        }
        assert KeyOrder(r) == [c[0].0] + KeyOrder(r[1..]);
      }
    }
  }

  /** The position of the first occurrence of `g` in `gs`. */
  function FirstIndex(gs: seq<Gap>, g: Gap): (k: nat)
    requires g in gs
    ensures k < |gs| && gs[k] == g && g !in gs[..k]
  {
    if gs[0] == g then 0 else 1 + FirstIndex(gs[1..], g)
  }

  /** `keys` holds each label of `gs` once, ordered by where it first occurs in `gs`. */
  predicate FirstSeenOrder(keys: seq<Gap>, gs: seq<Gap>)
  {
    (forall g :: g in keys <==> g in gs) &&
    (forall i, j :: 0 <= i < j < |keys| ==> FirstIndex(gs, keys[i]) < FirstIndex(gs, keys[j]))
  }

  lemma {:induction false} FirstIndexSnoc(gs: seq<Gap>, x: Gap, g: Gap)
    requires x in gs
    ensures FirstIndex(gs + [g], x) == FirstIndex(gs, x)
  {
    if gs[0] != x {
      assert (gs + [g])[1..] == gs[1..] + [g];
      FirstIndexSnoc(gs[1..], x, g);
    }
  }

  /** A label seen before leaves the keys and their first-occurrence order unchanged. */
  lemma FirstSeenAgain(keys: seq<Gap>, gs: seq<Gap>, g: Gap)
    requires FirstSeenOrder(keys, gs) && g in gs
    ensures FirstSeenOrder(keys, gs + [g])
  {
    forall x | x in gs ensures FirstIndex(gs + [g], x) == FirstIndex(gs, x) {
      FirstIndexSnoc(gs, x, g);
    }
  }

  /** A new label goes after every key: its first occurrence is the latest. */
  lemma FirstSeenNew(keys: seq<Gap>, gs: seq<Gap>, g: Gap)
    requires FirstSeenOrder(keys, gs) && g !in gs
    ensures FirstSeenOrder(keys + [g], gs + [g])
  {
    var keys', gs' := keys + [g], gs + [g];
    forall x | x in gs ensures FirstIndex(gs', x) == FirstIndex(gs, x) {
      FirstIndexSnoc(gs, x, g);
    }
    assert FirstIndex(gs', g) == |gs|;
    forall i, j | 0 <= i < j < |keys'| ensures FirstIndex(gs', keys'[i]) < FirstIndex(gs', keys'[j]) {
      assert keys'[i] == keys[i] && keys[i] in gs;
      if j < |keys| {
        assert keys'[j] == keys[j] && keys[j] in gs;
      }
    }
  }

  /** Seeing one more label keeps the keys in first-occurrence order, adding the label last if it is new. */
  lemma FirstSeenStep(keys: seq<Gap>, gs: seq<Gap>, g: Gap)
    requires FirstSeenOrder(keys, gs)
    ensures FirstSeenOrder(if g in gs then keys else keys + [g], gs + [g])
  {
    if g in gs {
      FirstSeenAgain(keys, gs, g);
    } else {
      FirstSeenNew(keys, gs, g);
    }
  }

  /** Counting `gaps` after `seen` keeps the keys in first-occurrence order over `seen + gaps`. */
  lemma {:induction false} TallyGapsOrder(c: Counts, seen: seq<Gap>, gaps: seq<Gap>)
    requires FirstSeenOrder(KeyOrder(c), seen)
    ensures FirstSeenOrder(KeyOrder(TallyGaps(c, gaps)), seen + gaps)
    decreases |gaps|
  {
    if gaps == [] {
      assert seen + gaps == seen;
    } else {
      var init, g := gaps[..|gaps| - 1], gaps[|gaps| - 1];
      var prev := TallyGaps(c, init);
      var keys, all := KeyOrder(prev), seen + init;
      TallyGapsOrder(c, seen, init);
      KeyOrderKeys(prev);
      assert g in KeysOf(prev) <==> g in all;
      IncrementOrder(prev, g);
      assert KeyOrder(TallyGaps(c, gaps)) == if g in all then keys else keys + [g];
      FirstSeenStep(keys, all, g);
      assert seen + gaps == all + [g];
    }
  }

  /** Every label of every report, report after report. */
  function AllGaps(reports: seq<VideoReport>): seq<Gap>
  {
    if reports == [] then []
    else AllGaps(reports[..|reports| - 1]) + reports[|reports| - 1].gaps
  }

  /** The keys of `gaps_count` are the labels in order of their first occurrence across the reports. */
  lemma {:induction false} TallyOrder(reports: seq<VideoReport>)
    ensures FirstSeenOrder(KeyOrder(Tally(reports)), AllGaps(reports))
    decreases |reports|
  {
    if reports != [] {
      var init := reports[..|reports| - 1];
      TallyOrder(init);
      TallyGapsOrder(Tally(init), AllGaps(init), reports[|reports| - 1].gaps);
    }
  }

  /** The dictionary after `for gap in gaps: ...` starting from `c`. */
  function TallyGaps(c: Counts, gaps: seq<Gap>): Counts
  {
    if gaps == [] then c
    else Increment(TallyGaps(c, gaps[..|gaps| - 1]), gaps[|gaps| - 1])
  }

  /** `gaps_count` after the loop has produced `reports`. */
  function Tally(reports: seq<VideoReport>): Counts
  {
    if reports == [] then []
    else TallyGaps(Tally(reports[..|reports| - 1]), reports[|reports| - 1].gaps)
  }

  lemma TallyStep(prev: seq<VideoReport>, r: VideoReport)
    ensures Tally(prev + [r]) == TallyGaps(Tally(prev), r.gaps)
  {
    assert (prev + [r])[..|prev|] == prev;
  }

  /** The number of reports whose gap list contains `g`. */
  function VideosWith(reports: seq<VideoReport>, g: Gap): (n: nat)
    ensures n <= |reports|
  {
    if reports == [] then 0
    else VideosWith(reports[..|reports| - 1], g) + (if g in reports[|reports| - 1].gaps then 1 else 0)
  }

  /** The total number of labels over all reports. */
  function TotalGaps(reports: seq<VideoReport>): nat
  {
    if reports == [] then 0
    else TotalGaps(reports[..|reports| - 1]) + |reports[|reports| - 1].gaps|
  }

  function Elements(gaps: seq<Gap>): set<Gap>
  {
    set g | g in gaps
  }

  predicate GapListsDistinct(reports: seq<VideoReport>)
  {
    forall i :: 0 <= i < |reports| ==> Distinct(reports[i].gaps)
  }

  // ---------------------------------------------------------------------------------------
  // What the counting establishes

  lemma {:induction false} TallyGapsLookup(c: Counts, gaps: seq<Gap>, g: Gap)
    requires Distinct(gaps)
    ensures Lookup(TallyGaps(c, gaps), g) == Lookup(c, g) + (if g in gaps then 1 else 0)
    decreases |gaps|
  {
    if gaps != [] {
      var init := gaps[..|gaps| - 1];
      assert Distinct(init);
      TallyGapsLookup(c, init, g);
      IncrementSpec(TallyGaps(c, init), gaps[|gaps| - 1]);
      assert g in gaps <==> g in init || g == gaps[|gaps| - 1];
      if g == gaps[|gaps| - 1] {
        assert g !in init;
      }
    }
  }

  lemma {:induction false} TallyGapsShape(c: Counts, gaps: seq<Gap>)
    ensures Sum(TallyGaps(c, gaps)) == Sum(c) + |gaps|
    ensures DistinctKeys(c) ==> DistinctKeys(TallyGaps(c, gaps))
    ensures Positive(c) ==> Positive(TallyGaps(c, gaps))
    ensures KeysOf(TallyGaps(c, gaps)) == KeysOf(c) + Elements(gaps)
    decreases |gaps|
  {
    if gaps != [] {
      var init := gaps[..|gaps| - 1];
      TallyGapsShape(c, init);
      IncrementSpec(TallyGaps(c, init), gaps[|gaps| - 1]);
      assert Elements(gaps) == Elements(init) + {gaps[|gaps| - 1]};
    }
  }

  /** `gaps_count[g]` is the number of analysed videos whose gap list contains `g`. */
  lemma {:induction false} TallyCounts(reports: seq<VideoReport>, g: Gap)
    requires GapListsDistinct(reports)
    ensures Lookup(Tally(reports), g) == VideosWith(reports, g)
    decreases |reports|
  {
    if reports != [] {
      var init := reports[..|reports| - 1];
      assert GapListsDistinct(init) by {
        forall i | 0 <= i < |init| ensures Distinct(init[i].gaps) {
          assert init[i] == reports[i];
        }
      }
      TallyCounts(init, g);
      TallyGapsLookup(Tally(init), reports[|reports| - 1].gaps, g);
    }
  }

  /** The labels that occur in at least one report. */
  function Labels(reports: seq<VideoReport>): set<Gap>
  {
    if reports == [] then {}
    else Labels(reports[..|reports| - 1]) + Elements(reports[|reports| - 1].gaps)
  }

  /**
   * `sum(gaps_count.values())` is the total number of labels; the keys are
   * distinct, each count is at least 1, and the keys are exactly the labels
   * that occur.
   */
  lemma {:induction false} TallyShape(reports: seq<VideoReport>)
    ensures Sum(Tally(reports)) == TotalGaps(reports)
    ensures DistinctKeys(Tally(reports)) && Positive(Tally(reports))
    ensures KeysOf(Tally(reports)) == Labels(reports)
    decreases |reports|
  {
    if reports != [] {
      var init := reports[..|reports| - 1];
      TallyShape(init);
      TallyGapsShape(Tally(init), reports[|reports| - 1].gaps);
    }
  }

  /** The report of one entry lists distinct labels in the variant's emission order. */
  lemma ReportOfWellFormed(v: Variant, e: Entry, fetch: DetailFetcher)
    ensures ReportOf(v, e, fetch).Some? ==>
      Distinct(ReportOf(v, e, fetch).value.gaps) && SubseqOf(ReportOf(v, e, fetch).value.gaps, EmissionOrder(v))
  {
  }

  /** Every report the loop produces comes from one listed entry and carries a duplicate-free gap list. */
  lemma {:induction false} ReportsDistinct(v: Variant, es: seq<Entry>, fetch: DetailFetcher)
    ensures |Reports(v, es, fetch)| <= |es|
    ensures GapListsDistinct(Reports(v, es, fetch))
    decreases |es|
  {
    if es != [] {
      ReportsDistinct(v, es[..|es| - 1], fetch);
      ReportOfWellFormed(v, es[|es| - 1], fetch);
    }
  }

  /** Every report lists its labels in the variant's emission order. */
  lemma {:induction false} ReportsOrdered(v: Variant, es: seq<Entry>, fetch: DetailFetcher)
    ensures forall i :: 0 <= i < |Reports(v, es, fetch)| ==> SubseqOf(Reports(v, es, fetch)[i].gaps, EmissionOrder(v))
    decreases |es|
  {
    if es != [] {
      ReportsOrdered(v, es[..|es| - 1], fetch);
      ReportOfWellFormed(v, es[|es| - 1], fetch);
    }
  }

  // ---------------------------------------------------------------------------------------
  // The loop itself

  /** The inner loop: `gaps_count[gap] = gaps_count.get(gap, 0) + 1` for each label of one video. */
  method CountGaps(counts: Counts, gaps: seq<Gap>) returns (r: Counts)
    ensures r == TallyGaps(counts, gaps)
  {
    r := counts;
    var j := 0;
    while j < |gaps|
      invariant 0 <= j <= |gaps|
      invariant r == TallyGaps(counts, gaps[..j])
    {
      assert gaps[..j + 1][..j] == gaps[..j];
      r := Increment(r, gaps[j]);
      j := j + 1;
    }
    assert gaps[..j] == gaps;
  }

  /**
   * The per-video loop: `videos_report`, `gaps_count` and `total_videos`
   * after every listed entry has been processed.
   */
  method AnalyzeVideos(v: Variant, entries: seq<Entry>, fetch: DetailFetcher)
    returns (reports: seq<VideoReport>, counts: Counts, total: nat)
    ensures reports == Reports(v, entries, fetch)
    ensures counts == Tally(reports)
    ensures total == |reports| <= |entries|
    ensures forall g :: Lookup(counts, g) == VideosWith(reports, g)
    ensures Sum(counts) == TotalGaps(reports)
    ensures KeysOf(counts) == Labels(reports) && DistinctKeys(counts) && Positive(counts)
    ensures FirstSeenOrder(KeyOrder(counts), AllGaps(reports))
  {
    reports, counts, total := [], [], 0;
    var i := 0;
    while i < |entries|
      invariant 0 <= i <= |entries|
      invariant reports == Reports(v, entries[..i], fetch)
      invariant counts == Tally(reports)
      invariant total == |reports|
    {
      var entry := entries[i];
      ghost var prev := reports;
      ReportsStep(v, entries, i, fetch);
      if entry.id != [] {
        var url := VideoUrl(entry.id);
        var info := fetch(url);
        if info.Some? {
          var gaps := Evaluate(v, entry.title, info.value);
          var report := VideoReport(entry.title, url, gaps);
          reports := reports + [report];
          TallyStep(prev, report);
          assert ReportOf(v, entry, fetch) == Some(report);
          counts := CountGaps(counts, gaps);
          total := total + 1;
        } else {
          assert ReportOf(v, entry, fetch) == None;
        }
      } else {
        assert ReportOf(v, entry, fetch) == None;
      }
      i := i + 1;
    }
    assert entries[..i] == entries;
    ReportsDistinct(v, entries, fetch);
    TallyShape(reports);
    TallyOrder(reports);
    forall g
      ensures Lookup(counts, g) == VideosWith(reports, g)
    {
      TallyCounts(reports, g);
    }
  }
}
