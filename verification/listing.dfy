/**
 * `extract_channel_videos`: the channel listing is requested under a fixed
 * sequence of URL forms; each listing is filtered down to the eligible
 * entries, and the first form whose filtered list is non-empty wins.
 */
module Listing {
  import opened Wrappers
  import opened PyStr
  import opened Gaps

  /**
   * One flat entry of a channel listing. A missing or null `title`/`id` is
   * the empty string; a missing flag is false; `releaseTimestamp` is in
   * epoch seconds.
   */
  datatype Entry = Entry(id: string, title: string, isLive: bool, wasLive: bool,
                         isUpcoming: bool, isPremiere: bool, releaseTimestamp: Option<int>)

  /** `info['entries']`: a listing may hold null entries, written None. */
  type Entries = seq<Option<Entry>>

  /**
   * The downloader's listing call for one URL: None when `extract_info`
   * raises or returns nothing usable, otherwise the listing's entries.
   */
  type ListingFetcher = string -> Option<Entries>

  /**
   * The filter of app.py and gradio_app.py: no null entry, no live, past-live,
   * upcoming or premiere entry, no release time later than `now`, and both a
   * title and an id.
   */
  predicate EligibleRecent(e: Option<Entry>, now: real)
  {
    && e.Some?
    && !e.value.isLive && !e.value.wasLive
    && !e.value.isUpcoming && !e.value.isPremiere
    && !(e.value.releaseTimestamp.Some? && e.value.releaseTimestamp.value as real > now)
    && e.value.title != [] && e.value.id != []
  }

  /** A title that names a channel tab rather than a video. */
  predicate IsTabTitle(title: string)
  {
    EndsWith(title, " - Videos") || EndsWith(title, " - Shorts") || EndsWith(title, " - Live")
  }

  /**
   * The filter of youtube_opt.py and Youtube_MVP3.py: no null entry, both a
   * title and an id, no tab title, no live or past-live entry.
   */
  predicate EligibleTabs(e: Option<Entry>)
  {
    && e.Some?
    && e.value.title != [] && e.value.id != []
    && !IsTabTitle(e.value.title)
    && !e.value.isLive && !e.value.wasLive
  }

  predicate Eligible(v: Variant, e: Option<Entry>, now: real)
  {
    if v == App || v == Gradio then EligibleRecent(e, now) else EligibleTabs(e)
  }

  /** Only app.py and gradio_app.py stop collecting once `max_videos` entries are kept. */
  predicate HasCap(v: Variant)
  {
    v == App || v == Gradio
  }

  /** The eligible entries of a listing, in listing order. */
  function Kept(v: Variant, es: Entries, now: real): seq<Entry>
  {
    if es == [] then []
    else
      var init := Kept(v, es[..|es| - 1], now);
      if Eligible(v, es[|es| - 1], now) then init + [es[|es| - 1].value] else init
  }

  /**
   * What one pass of the filter loop keeps. With a cap, the loop breaks when
   * the kept list reaches exactly `maxVideos` entries, so a cap below 1 never
   * triggers.
   */
  function Filtered(v: Variant, es: Entries, now: real, maxVideos: int): seq<Entry>
  {
    var all := Kept(v, es, now);
    if HasCap(v) && 1 <= maxVideos < |all| then all[..maxVideos] else all
  }

  lemma {:induction false} KeptPrefix(v: Variant, es: Entries, now: real, i: nat)
    requires i <= |es|
    ensures Kept(v, es[..i], now) <= Kept(v, es, now)
    decreases |es|
  {
    if i < |es| {
      assert es[..|es| - 1][..i] == es[..i];
      KeptPrefix(v, es[..|es| - 1], now, i);
    } else {
      assert es[..i] == es;
    }
  }

  /** Every kept entry is an eligible, non-null entry of the listing. */
  lemma {:induction false} KeptSound(v: Variant, es: Entries, now: real)
    ensures forall k :: 0 <= k < |Kept(v, es, now)| ==>
      Some(Kept(v, es, now)[k]) in es && Eligible(v, Some(Kept(v, es, now)[k]), now)
  {
    if es != [] {
      var init := es[..|es| - 1];
      KeptSound(v, init, now);
      assert forall x :: x in init ==> x in es;
      assert es[|es| - 1] in es;
    }
  }

  /** Every eligible entry of the listing is kept when no cap applies. */
  lemma {:induction false} KeptComplete(v: Variant, es: Entries, now: real)
    ensures forall i :: 0 <= i < |es| && Eligible(v, es[i], now) ==> es[i].value in Kept(v, es, now)
  {
    if es != [] {
      var init := es[..|es| - 1];
      KeptComplete(v, init, now);
      forall i | 0 <= i < |es| && Eligible(v, es[i], now)
        ensures es[i].value in Kept(v, es, now)
      {
        if i < |es| - 1 {
          assert es[i] == init[i];
        }
      }
    }
  }

  /** The positions in `es` of the entries that pass the skip tests, in listing order. */
  function EligibleIndices(v: Variant, es: Entries, now: real): seq<nat>
  {
    if es == [] then []
    else EligibleIndices(v, es[..|es| - 1], now) + (if Eligible(v, es[|es| - 1], now) then [|es| - 1] else [])
  }

  /**
   * `kept` is what `es` holds at the positions `idx`; the positions rise
   * strictly and are exactly those of the eligible entries.
   */
  predicate SelectedAt(v: Variant, es: Entries, now: real, kept: seq<Entry>, idx: seq<nat>)
  {
    |idx| == |kept| &&
    (forall k :: 0 <= k < |idx| ==> idx[k] < |es| && es[idx[k]] == Some(kept[k])) &&
    (forall k, l :: 0 <= k < l < |idx| ==> idx[k] < idx[l]) &&
    (forall i :: 0 <= i < |es| ==> (i in idx <==> Eligible(v, es[i], now)))
  }

  /** The kept entries are all the eligible entries of the listing, each once, in listing order. */
  lemma {:induction false} KeptOrder(v: Variant, es: Entries, now: real)
    ensures SelectedAt(v, es, now, Kept(v, es, now), EligibleIndices(v, es, now))
    decreases |es|
  {
    if es != [] {
      var init := es[..|es| - 1];
      KeptOrder(v, init, now);
      var idx0 := EligibleIndices(v, init, now);
      forall k | 0 <= k < |idx0| ensures idx0[k] < |init| && es[idx0[k]] == init[idx0[k]] {
      }
      forall i | 0 <= i < |init| ensures es[i] == init[i] {
      }
    }
  }

  /**
   * The filter result is the first `min(maxVideos, n)` of the `n` eligible
   * entries when the variant caps and `maxVideos` is positive, and all of them
   * otherwise. In particular it is empty exactly when no entry of the listing
   * is eligible, which is what the fall-back to the next URL form tests.
   */
  lemma FilteredShape(v: Variant, es: Entries, now: real, maxVideos: int)
    ensures Filtered(v, es, now, maxVideos) <= Kept(v, es, now)
    ensures HasCap(v) && maxVideos >= 1 ==>
      |Filtered(v, es, now, maxVideos)| == if |Kept(v, es, now)| < maxVideos then |Kept(v, es, now)| else maxVideos
    ensures !HasCap(v) || maxVideos < 1 ==> Filtered(v, es, now, maxVideos) == Kept(v, es, now)
    ensures Filtered(v, es, now, maxVideos) == [] <==> forall i :: 0 <= i < |es| ==> !Eligible(v, es[i], now)
  {
    KeptOrder(v, es, now);
    var idx := EligibleIndices(v, es, now);
    if Kept(v, es, now) != [] {
      assert idx[0] in idx;
    }
  }

  /**
   * The filtering loop of `extract_channel_videos` over one listing: entries
   * are examined in order, eligible ones appended, and the loop breaks once
   * `maxVideos` entries are kept (app.py and gradio_app.py only).
   */
  method FilterListing(v: Variant, entries: Entries, maxVideos: int, now: real)
    returns (valid: seq<Entry>)
    ensures valid == Filtered(v, entries, now, maxVideos)
  {
    valid := [];
    var i := 0;
    while i < |entries|
      invariant 0 <= i <= |entries|
      invariant valid == Kept(v, entries[..i], now)
      invariant HasCap(v) && maxVideos >= 1 ==> |valid| < maxVideos
    {
      assert entries[..i + 1][..i] == entries[..i];
      if Eligible(v, entries[i], now) {
        valid := valid + [entries[i].value];
        if HasCap(v) && |valid| == maxVideos {
          KeptPrefix(v, entries, now, i + 1);
          return;
        }
      }
      i := i + 1;
    }
    assert entries[..i] == entries;
  }

  /** The URL forms tried, in order: the videos tab, the bare channel URL and, except in youtube_opt.py, the streams tab. */
  function UrlForms(v: Variant, channelUrl: string): (urls: seq<string>)
    ensures |urls| == (if v == YoutubeOpt then 2 else 3)
  {
    if v == YoutubeOpt then [channelUrl + "/videos", channelUrl]
    else [channelUrl + "/videos", channelUrl, channelUrl + "/streams"]
  }

  /** What one URL form yields: its filtered listing, or nothing when the request failed. */
  function Yield(v: Variant, fetch: ListingFetcher, url: string, now: real, maxVideos: int): seq<Entry>
  {
    match fetch(url)
    case None => []
    case Some(es) => Filtered(v, es, now, maxVideos)
  }

  /** The first non-empty yield among `urls`, or [] when there is none. */
  function FirstNonEmpty(v: Variant, fetch: ListingFetcher, urls: seq<string>, now: real, maxVideos: int)
    : seq<Entry>
  {
    if urls == [] then []
    else
      var y := Yield(v, fetch, urls[0], now, maxVideos);
      if y != [] then y else FirstNonEmpty(v, fetch, urls[1..], now, maxVideos)
  }

  /**
   * The fallback result is empty exactly when every URL form yields nothing,
   * and otherwise it is the yield of the first form that yields something.
   */
  lemma {:induction false} FirstNonEmptyIsFirst(v: Variant, fetch: ListingFetcher, urls: seq<string>,
                                                now: real, maxVideos: int)
    ensures FirstNonEmpty(v, fetch, urls, now, maxVideos) == []
        <==> forall j :: 0 <= j < |urls| ==> Yield(v, fetch, urls[j], now, maxVideos) == []
    ensures FirstNonEmpty(v, fetch, urls, now, maxVideos) != [] ==>
      exists j :: 0 <= j < |urls| && FirstNonEmpty(v, fetch, urls, now, maxVideos) == Yield(v, fetch, urls[j], now, maxVideos)
        && forall i :: 0 <= i < j ==> Yield(v, fetch, urls[i], now, maxVideos) == []
  {
    if urls != [] && Yield(v, fetch, urls[0], now, maxVideos) == [] {
      FirstNonEmptyIsFirst(v, fetch, urls[1..], now, maxVideos);
      assert forall j :: 1 <= j < |urls| ==> urls[j] == urls[1..][j - 1];
      if FirstNonEmpty(v, fetch, urls, now, maxVideos) != [] {
        var j :| 0 <= j < |urls[1..]| && FirstNonEmpty(v, fetch, urls[1..], now, maxVideos) == Yield(v, fetch, urls[1..][j], now, maxVideos)
          && forall i :: 0 <= i < j ==> Yield(v, fetch, urls[1..][i], now, maxVideos) == [];
        assert forall i :: 0 <= i < j + 1 ==> Yield(v, fetch, urls[i], now, maxVideos) == [] by {
          forall i | 0 <= i < j + 1 ensures Yield(v, fetch, urls[i], now, maxVideos) == [] {
            if i > 0 { assert urls[i] == urls[1..][i - 1]; }
          }
        }
        assert urls[j + 1] == urls[1..][j];
      }
    }
  }

  /**
   * `extract_channel_videos`: tries the URL forms in order and returns the
   * first non-empty filtered listing. `tried` lists the URLs requested: a
   * form after the winning one is never requested.
   */
  method ExtractChannelVideos(v: Variant, channelUrl: string, fetch: ListingFetcher,
                              maxVideos: int, now: real)
    returns (videos: seq<Entry>, tried: seq<string>)
    ensures videos == FirstNonEmpty(v, fetch, UrlForms(v, channelUrl), now, maxVideos)
    ensures tried != [] && tried <= UrlForms(v, channelUrl)
    ensures forall j :: 0 <= j < |tried| - 1 ==> Yield(v, fetch, tried[j], now, maxVideos) == []
    ensures videos == Yield(v, fetch, tried[|tried| - 1], now, maxVideos)
    ensures videos == [] ==> tried == UrlForms(v, channelUrl)
  {
    var urls := UrlForms(v, channelUrl);
    tried := [];
    var k := 0;
    while k < |urls|
      invariant 0 <= k <= |urls|
      invariant tried == urls[..k]
      invariant forall j :: 0 <= j < k ==> Yield(v, fetch, urls[j], now, maxVideos) == []
      invariant FirstNonEmpty(v, fetch, urls, now, maxVideos) == FirstNonEmpty(v, fetch, urls[k..], now, maxVideos)
    {
      tried := tried + [urls[k]];
      var listing := fetch(urls[k]);
      videos := [];
      if listing.Some? {
        videos := FilterListing(v, listing.value, maxVideos, now);
      }
      assert videos == Yield(v, fetch, urls[k], now, maxVideos);
      if videos != [] {
        assert FirstNonEmpty(v, fetch, urls[k..], now, maxVideos) == videos by {
          assert urls[k..][0] == urls[k];
        }
        return;
      }
      assert FirstNonEmpty(v, fetch, urls[k..], now, maxVideos)
          == FirstNonEmpty(v, fetch, urls[k + 1..], now, maxVideos) by {
        assert urls[k..][0] == urls[k];
        assert urls[k..][1..] == urls[k + 1..];
      }
      k := k + 1;
    }
    videos := [];
    assert tried == urls;
  }
}
