/**
 * The four front ends end to end: fetch the listing, run the per-video loop,
 * and report. app.py and youtube_opt.py also compute a channel score and a
 * verdict; gradio_app.py returns the report table and the priority matrix;
 * Youtube_MVP3.py prints the summary and the top 3.
 */
module Audit {
  import opened Wrappers
  import opened Gaps
  import opened Listing
  import opened Rules
  import opened Sorting
  import opened Channel
  import opened Ranking

  // ---------------------------------------------------------------------------------------
  // How many labels one video can carry

  /** In app.py and gradio_app.py every video carries at most 8 labels, all of them catalogued. */
  lemma {:induction false} AppReportsBounded(v: Variant, es: seq<Entry>, fetch: DetailFetcher)
    requires v == App || v == Gradio
    ensures TotalGaps(Reports(v, es, fetch)) <= 8 * |Reports(v, es, fetch)|
    ensures Labels(Reports(v, es, fetch)) <= Keys(AppCatalog)
    decreases |es|
  {
    if es != [] {
      var init := es[..|es| - 1];
      var e := es[|es| - 1];
      AppReportsBounded(v, init, fetch);
      var prev := Reports(v, init, fetch);
      match ReportOf(v, e, fetch)
      case None =>
      case Some(r) =>
        var rs := prev + [r];
        assert rs[..|rs| - 1] == prev;
        var detail := fetch(VideoUrl(e.id)).value;
        assert r.gaps == Evaluate(v, e.title, detail);
        assert Evaluate(v, e.title, detail) == Evaluate(App, e.title, detail) by {
          assert TitleRules(v, e.title) == TitleRules(App, e.title);
          assert DescriptionRules(v, detail.description) == DescriptionRules(App, detail.description);
        }
        AppGapsPerVideo(e.title, detail);
        AppLabelsInCatalog(v, e.title, detail);
    }
  }

  /** In youtube_opt.py every video carries at most 10 labels. */
  lemma {:induction false} OptReportsBounded(es: seq<Entry>, fetch: DetailFetcher)
    ensures TotalGaps(Reports(YoutubeOpt, es, fetch)) <= 10 * |Reports(YoutubeOpt, es, fetch)|
    decreases |es|
  {
    if es != [] {
      var init := es[..|es| - 1];
      var e := es[|es| - 1];
      OptReportsBounded(init, fetch);
      var prev := Reports(YoutubeOpt, init, fetch);
      match ReportOf(YoutubeOpt, e, fetch)
      case None =>
      case Some(r) =>
        var rs := prev + [r];
        assert rs[..|rs| - 1] == prev;
        OptGapsPerVideo(e.title, fetch(VideoUrl(e.id)).value);
    }
  }

  /** In Youtube_MVP3.py every analysed video carries at least one label. */
  lemma {:induction false} Mvp3ReportsLabelled(es: seq<Entry>, fetch: DetailFetcher)
    ensures TotalGaps(Reports(Mvp3, es, fetch)) >= |Reports(Mvp3, es, fetch)|
    decreases |es|
  {
    if es != [] {
      var init := es[..|es| - 1];
      var e := es[|es| - 1];
      Mvp3ReportsLabelled(init, fetch);
      var prev := Reports(Mvp3, init, fetch);
      match ReportOf(Mvp3, e, fetch)
      case None =>
      case Some(r) =>
        var rs := prev + [r];
        assert rs[..|rs| - 1] == prev;
        Mvp3AlwaysLabelled(e.title, fetch(VideoUrl(e.id)).value);
    }
  }

  // ---------------------------------------------------------------------------------------
  // Scores and verdicts

  /**
   * app.py's health score: 100 minus the share of (label, video) slots that
   * are gaps, `len(gap_info) * total_videos` slots in all.
   */
  function AppScore(found: nat, total: nat): (score: real)
    requires total > 0
    ensures found <= |AppCatalog| * total ==> 0.0 <= score <= 100.0
    ensures score == 100.0 <==> found == 0
  {
    var slots := (|AppCatalog| * total) as real;
    var share := found as real / slots;
    assert found <= |AppCatalog| * total ==> share <= 1.0 by {
      if found <= |AppCatalog| * total {
        assert share * slots == found as real;
      }
    }
    100.0 - share * 100.0
  }

  /** With at most 8 labels per video the score never drops below 20. */
  lemma AppScoreFloor(found: nat, total: nat)
    requires total > 0 && found <= 8 * total
    ensures 20.0 <= AppScore(found, total) <= 100.0
  {
    var slots := (|AppCatalog| * total) as real;
    var share := found as real / slots;
    assert share * slots == found as real;
    assert share <= 0.8;
  }

  /** app.py's feedback: critical below 50, medium below 70, good otherwise. */
  datatype Health = Critical | Medium | Healthy

  function AppHealth(score: real): (h: Health)
    ensures h == Critical <==> score < 50.0
    ensures h == Healthy <==> score >= 70.0
  {
    if score < 50.0 then Critical else if score < 70.0 then Medium else Healthy
  }

  /** The bar: `int(score / 10)` full cells, then empty ones up to 10. */
  function Bar(score: real): (cells: (int, int))
    requires 0.0 <= score <= 100.0
    ensures 0 <= cells.0 <= 10 && cells.0 + cells.1 == 10
    ensures cells.0 as real * 10.0 <= score < (cells.0 + 1) as real * 10.0
  {
    var filled := (score / 10.0).Floor;
    (filled, 10 - filled)
  }

  /** youtube_opt.py's score: `max(0, 100 - 7 * average gaps per video)`, the average 0 with no video. */
  function OptScore(totalGaps: nat, total: nat): (score: real)
    ensures 0.0 <= score <= 100.0
  {
    var avg := if total > 0 then totalGaps as real / total as real else 0.0;
    var raw := 100.0 - avg * 7.0;
    if raw > 0.0 then raw else 0.0
  }

  /** With at most 10 labels per video the clamp at 0 never applies: the score is at least 30. */
  lemma OptScoreUnclamped(totalGaps: nat, total: nat)
    requires total > 0 && totalGaps <= 10 * total
    ensures OptScore(totalGaps, total) == 100.0 - 7.0 * (totalGaps as real / total as real)
    ensures OptScore(totalGaps, total) >= 30.0
  {
    var avg := totalGaps as real / total as real;
    assert avg * total as real == totalGaps as real;
    assert avg <= 10.0;
  }

  datatype OptVerdict = Excellent | Good | Potential

  /** youtube_opt.py's verdict: excellent from 80, good from 60. */
  function OptVerdictOf(score: real): (verdict: OptVerdict)
    ensures verdict == Excellent <==> score >= 80.0
    ensures verdict == Potential <==> score < 60.0
  {
    if score >= 80.0 then Excellent else if score >= 60.0 then Good else Potential
  }

  // ---------------------------------------------------------------------------------------
  // The front ends

  datatype Outcome<R> = NoVideos | NothingAnalyzed | Done(result: R)

  datatype AppResult = AppResult(reports: seq<VideoReport>, counts: Counts, matrix: seq<MatrixRow>,
                                 summary: seq<(Gap, nat)>, top: seq<Ranked>, score: real, bar: (int, int),
                                 health: Health)

  datatype OptResult = OptResult(reports: seq<VideoReport>, counts: Counts, summary: seq<(Gap, nat)>,
                                 top: seq<Ranked>, score: real, verdict: OptVerdict)

  datatype Mvp3Result = Mvp3Result(reports: seq<VideoReport>, counts: Counts, summary: seq<(Gap, nat)>,
                                   top: seq<Ranked>)

  /**
   * app.py's "Analizar Canal" button. With no analysed video it stops with
   * NothingAnalyzed, and an empty matrix sorts to an empty matrix (see the
   * findings in README.md for what app.py does instead).
   */
  method AuditApp(channelUrl: string, listing: ListingFetcher, fetch: DetailFetcher, maxVideos: int, now: real)
    returns (videos: seq<Entry>, out: Outcome<AppResult>)
    ensures videos == FirstNonEmpty(App, listing, UrlForms(App, channelUrl), now, maxVideos)
    ensures out.NoVideos? <==> videos == []
    ensures out.NothingAnalyzed? <==> videos != [] && Reports(App, videos, fetch) == []
    ensures out.Done? ==>
      var r := out.result;
      r.reports == Reports(App, videos, fetch) && r.reports != [] && r.counts == Tally(r.reports)
      && Comparable(MatrixRows(AppCatalog, r.counts)) && r.matrix == SortMatrix(MatrixRows(AppCatalog, r.counts))
      && r.summary == AppSummary(r.counts)
      && r.top == TopThree(EuroCandidates(AppCatalog, r.counts))
      && r.score == AppScore(TotalGaps(r.reports), |r.reports|) && 20.0 <= r.score <= 100.0
      && r.bar == Bar(r.score) && 2 <= r.bar.0
      && r.health == AppHealth(r.score)
  {
    var tried;
    videos, tried := ExtractChannelVideos(App, channelUrl, listing, maxVideos, now);
    if videos == [] {
      return videos, NoVideos;
    }
    var reports, counts, total := AnalyzeVideos(App, videos, fetch);
    if total == 0 {
      return videos, NothingAnalyzed;
    }
    AppReportsBounded(App, videos, fetch);
    CataloguedMatrixComparable(counts);
    var rows := BuildMatrix(AppCatalog, counts);
    var matrix := SortMatrix(rows);
    var summary := AppSummary(counts);
    var top := RankByEuros(AppCatalog, counts);
    var found := Sum(counts);
    var score := AppScore(found, total);
    AppScoreFloor(found, total);
    out := Done(AppResult(reports, counts, matrix, summary, top, score, Bar(score), AppHealth(score)));
  }

  /**
   * gradio_app.py's `analizar_canal`: the report rows and the sorted priority
   * matrix, one row per distinct label.
   */
  method AuditGradio(url: string, listing: ListingFetcher, fetch: DetailFetcher, maxVideos: int, now: real)
    returns (reports: seq<VideoReport>, matrix: seq<MatrixRow>)
    ensures reports == Reports(Gradio, FirstNonEmpty(Gradio, listing, UrlForms(Gradio, url), now, maxVideos), fetch)
    ensures Comparable(MatrixRows(AppCatalog, Tally(reports)))
    ensures matrix == SortMatrix(MatrixRows(AppCatalog, Tally(reports)))
    ensures |matrix| == |Labels(reports)|
  {
    var videos, tried := ExtractChannelVideos(Gradio, url, listing, maxVideos, now);
    var counts, total;
    reports, counts, total := AnalyzeVideos(Gradio, videos, fetch);
    AppReportsBounded(Gradio, videos, fetch);
    CataloguedMatrixComparable(counts);
    var rows := BuildMatrix(AppCatalog, counts);
    MatrixRowsSpec(AppCatalog, counts);
    DistinctKeysCount(counts);
    matrix := SortMatrix(rows);
  }

  /** youtube_opt.py's `analizar_canal`, with its two early returns. */
  method AuditOpt(channelUrl: string, listing: ListingFetcher, fetch: DetailFetcher, numVideos: int, now: real)
    returns (videos: seq<Entry>, out: Outcome<OptResult>)
    ensures videos == FirstNonEmpty(YoutubeOpt, listing, UrlForms(YoutubeOpt, channelUrl), now, numVideos)
    ensures out.NoVideos? <==> videos == []
    ensures out.NothingAnalyzed? <==> videos != [] && Reports(YoutubeOpt, videos, fetch) == []
    ensures out.Done? ==>
      var r := out.result;
      r.reports == Reports(YoutubeOpt, videos, fetch) && r.reports != [] && r.counts == Tally(r.reports)
      && r.summary == CountSummary(r.counts)
      && r.top == TopThree(WeightCandidates(OptCatalog, r.counts))
      && r.score == 100.0 - 7.0 * (TotalGaps(r.reports) as real / |r.reports| as real) && r.score >= 30.0
      && r.verdict == OptVerdictOf(r.score)
  {
    var tried;
    videos, tried := ExtractChannelVideos(YoutubeOpt, channelUrl, listing, numVideos, now);
    if videos == [] {
      return videos, NoVideos;
    }
    var reports, counts, total := AnalyzeVideos(YoutubeOpt, videos, fetch);
    if total == 0 {
      return videos, NothingAnalyzed;
    }
    var summary := CountSummary(counts);
    var top := RankByWeight(OptCatalog, counts);
    var totalGaps := Sum(counts);
    var score := OptScore(totalGaps, total);
    OptReportsBounded(videos, fetch);
    OptScoreUnclamped(totalGaps, total);
    out := Done(OptResult(reports, counts, summary, top, score, OptVerdictOf(score)));
  }

  /** The number of videos Youtube_MVP3.py's script asks for. */
  const Mvp3MaxVideos := 5

  /**
   * Youtube_MVP3.py's script for the channel `channelUrl`. Every analysed video
   * has at least one label, so a run that analyses anything has a non-empty summary.
   */
  method AuditMvp3(channelUrl: string, listing: ListingFetcher, fetch: DetailFetcher, now: real)
    returns (videos: seq<Entry>, out: Outcome<Mvp3Result>)
    ensures videos == FirstNonEmpty(Mvp3, listing, UrlForms(Mvp3, channelUrl), now, Mvp3MaxVideos)
    ensures out.NoVideos? <==> videos == []
    ensures out.NothingAnalyzed? <==> videos != [] && Reports(Mvp3, videos, fetch) == []
    ensures out.Done? ==>
      var r := out.result;
      r.reports == Reports(Mvp3, videos, fetch) && r.counts == Tally(r.reports) && r.summary != []
      && r.summary == CountSummary(r.counts)
      && r.top == TopThree(WeightCandidates(Mvp3Catalog, r.counts))
  {
    var tried;
    videos, tried := ExtractChannelVideos(Mvp3, channelUrl, listing, Mvp3MaxVideos, now);
    if videos == [] {
      return videos, NoVideos;
    }
    var reports, counts, analysed := AnalyzeVideos(Mvp3, videos, fetch);
    if analysed == 0 {
      return videos, NothingAnalyzed;
    }
    Mvp3ReportsLabelled(videos, fetch);
    var summary := CountSummary(counts);
    assert |summary| == |counts|;
    var top := RankByWeight(Mvp3Catalog, counts);
    out := Done(Mvp3Result(reports, counts, summary, top));
  }

  // ---------------------------------------------------------------------------------------
  // The empty matrix

  /** A detail fetcher that never returns anything: every video's detail request fails. */
  function NoDetails(url: string): Option<VideoDetail>
  {
    None
  }

  lemma {:induction false} NoDetailsNoReports(v: Variant, es: seq<Entry>)
    ensures Reports(v, es, NoDetails) == []
    decreases |es|
  {
    if es != [] {
      NoDetailsNoReports(v, es[..|es| - 1]);
    }
  }

  /**
   * When every detail request of a non-empty listing fails, the matrix has
   * no rows, and app.py's and gradio_app.py's `sort_values` on it raises.
   */
  lemma EmptyMatrixRaises(v: Variant, es: seq<Entry>)
    requires v == App || v == Gradio
    ensures Comparable(MatrixRows(AppCatalog, Tally(Reports(v, es, NoDetails))))
    ensures SortMatrixAsWritten(MatrixRows(AppCatalog, Tally(Reports(v, es, NoDetails)))) == None
  {
    NoDetailsNoReports(v, es);
  }
}
