# YouTube metadata gap auditor — a Dafny model

The repository holds four front ends of one YouTube channel auditor: app.py (Streamlit), youtube_opt.py (Streamlit, text report), Youtube_MVP3.py (a plain script) and gradio_app.py (Gradio). Each one works the same way:

1. `extract_channel_videos` lists the channel. It tries a fixed sequence of URL forms and filters each listing. The first form with a non-empty filtered list wins.
2. Each kept video's detail is fetched. The video is run through `analizar_titulo`, `analizar_descripcion` and `analizar_extras`, which emit Spanish "gap" labels in a fixed order.
3. The labels are counted in `gaps_count`.
4. The front end derives its report from the counts: a top-3 list, a per-gap summary and, in app.py and gradio_app.py, a priority matrix sorted by effort and euro impact. app.py and youtube_opt.py also compute a health score and a verdict.

The model is split by module:

- `Wrappers` — `Option`.
- `PyStr` — the parts of Python's `str` the rules use.
- `Gaps` — the labels, the three `gap_info` catalogues and the euro amount read out of `estimado_mensual`.
- `Listing` — the candidate filter and the URL fallback, as loops.
- `Rules` — the rule functions of each front end.
- `Sorting` — Python's stable `sort`/`sorted` with `reverse=True`, and pandas' multi-column `sort_values`, as a stable insertion sort.
- `Channel` — the per-video loop. `gaps_count` is an association list kept in insertion order, because Python dictionaries keep their keys in insertion order and that order breaks ties in every later sort.
- `Ranking` — top 3, summaries and matrix.
- `Audit` — scores, verdicts and each front end end to end.
- `Scenarios` — worked title and description examples.

The downloader is a parameter everywhere:

- A `ListingFetcher` maps a URL to `Some(entries)` or `None`.
- A `DetailFetcher` maps a watch URL to `Some(detail)` or `None`.
- `time.time()` is the parameter `now`.

## Model

| member | source | states |
|---|---|---|
| PyStr.Strip | app.py:82 | `desc.strip()` is the middle of `desc` between its leading and trailing whitespace; it is empty exactly when `desc` is all whitespace |
| PyStr.Split | app.py:96-97 | `s.split()` gives non-empty words without whitespace, and no word exactly when `s` is all whitespace |
| PyStr.SplitJoinSpaced | app.py:96-97 | splitting words joined by single spaces gives the words back |
| PyStr.SplitWords | app.py:96-97 | a string is a word of `s.split()` exactly when it is a maximal run of non-whitespace characters of `s` (whitespace or an end of `s` on each side); this fixes `set(s.split())`, which is all the keyword rule uses |
| PyStr.ContainsIff | app.py:74 | Python's `p in s` holds exactly when `p` occurs at some position of `s` |
| Gaps.Find | app.py:106 | `gap_info.get(gap)` finds an entry exactly when the gap is a key, and the entry found is the one stored under that key |
| Gaps.AppCatalogKeys | app.py:7-38 | the 10 keys of app.py's `gap_info` are every label except "Incluye IA", "Usa emoji", "Incluye CTA" and "Sin hashtags en descripción" |
| Gaps.EuroAmountOfEstimate | app.py:109 | reading the digits after '€' in "€N/mes" gives back N |
| Gaps.EuroAmountWithoutSign | app.py:154 | a string without '€', such as the fallback "?", reads as 0 |
| Listing.KeptSound | app.py:54-63 | every kept entry is a non-null entry of the listing that passes every skip test (live, past-live, upcoming, premiere, future release, missing title or id) |
| Listing.KeptComplete | app.py:54-63 | every entry that passes the skip tests is among the kept entries |
| Listing.KeptOrder | app.py:54-63 | the kept entries are the listing's entries at strictly increasing positions, and those positions are exactly the ones whose entry passes the skip tests: every eligible entry once, in listing order |
| Listing.FilteredShape | app.py:63-66 | the filtered list is the first min(`max_videos`, n) of the n eligible entries when the cap applies (a cap of at least 1; app.py and gradio_app.py:87-88), and all of them without it (youtube_opt.py:54-68 and Youtube_MVP3.py:37-54 have no cap); it is empty exactly when no entry of the listing is eligible, which is the test that falls back to the next URL form |
| Listing.FilterListing | app.py:53-64 | the loop with `continue`s and `break` returns exactly the capped, order-preserving list of eligible entries |
| Listing.UrlForms | app.py:45-47 | three URL forms (`/videos`, bare, `/streams`); youtube_opt.py:43-46 has only the first two |
| Listing.FirstNonEmptyIsFirst | app.py:48-69 | the fallback result is empty exactly when every URL form yields nothing; otherwise it is the yield of a form before which every form yielded nothing |
| Listing.ExtractChannelVideos | app.py:40-69 | returns the first non-empty filtered listing, requests the URL forms in order, and never requests a form after the winning one |
| Rules.AppTitle | app.py:71-78 | "Título largo" iff length > 60; "Incluye FREE/GRATIS" iff the upper-cased title contains FREE or GRATIS; "Sin emojis en título" iff none of the six emojis occurs; "Título sin números" iff no digit |
| Rules.OptTitle | youtube_opt.py:77-91 | app.py's title rules plus "Incluye IA" iff the upper-cased title contains AI or IA |
| Rules.Mvp3Title | Youtube_MVP3.py:70-85 | youtube_opt.py's title rules plus "Usa emoji" iff one of the six emojis occurs, so exactly one of the two emoji labels is emitted |
| Rules.AppDescription | app.py:80-90 | a blank description gives exactly ["Metadescripción ausente"]; otherwise "Descripción corta" iff stripped length < 150, "Sin CTA" iff no CTA phrase, "Sin pregunta de interacción" iff no question marker |
| Rules.OptDescription | youtube_opt.py:93-113 | app.py's description rules plus "Sin hashtags en descripción" iff a present description has no '#' |
| Rules.Mvp3Description | Youtube_MVP3.py:87-102 | app.py's description rules plus "Incluye CTA" iff a present description has a CTA phrase |
| Rules.Extras | app.py:92-103 | "Sin playlist asignada" iff `playlist_title` is absent or empty; the keyword label iff stripped length >= 150 and fewer than 3 non-stop-word title words are description words |
| Rules.AppTitleOrdered | app.py:73-77 | the title labels come in source order: long, free, emoji, digits |
| Rules.OptTitleOrdered | youtube_opt.py:80-90 | the title labels come in source order, "Incluye IA" second |
| Rules.Mvp3TitleOrdered | Youtube_MVP3.py:72-84 | the title labels come in source order, "Usa emoji" before "Sin emojis en título" |
| Rules.AppDescriptionOrdered | app.py:82-89 | the description labels come in source order |
| Rules.OptDescriptionOrdered | youtube_opt.py:96-111 | the description labels come in source order, hashtags before the question rule |
| Rules.Mvp3DescriptionOrdered | Youtube_MVP3.py:89-101 | the description labels come in source order, "Incluye CTA" before "Sin CTA" |
| Rules.ExtrasOrdered | app.py:94-102 | the playlist label comes before the keyword label |
| Rules.EmissionOrderDistinct | app.py:137 | each front end's full emission order (title, then description, then extras) lists no label twice |
| Rules.PartsOrdered | app.py:137 | `titulo_checks + desc_checks + extras_checks` follows the emission order and lists no label twice |
| Rules.Evaluate | app.py:134-137 | one video's gap list is in emission order and free of duplicates |
| Rules.ComentaSatisfiesBoth | app.py:86-89 | a present description containing "comenta" gets neither "Sin CTA" nor "Sin pregunta de interacción" |
| Rules.KeywordsExcludeShortOrMissing | app.py:95 | the keyword label never comes with "Descripción corta" or "Metadescripción ausente" |
| Rules.Mvp3PartLabels | Youtube_MVP3.py:70-117 | in Youtube_MVP3.py the emoji labels come only from the title and the CTA labels only from the description |
| Rules.Mvp3AlwaysLabelled | Youtube_MVP3.py:79-82 | exactly one of "Usa emoji" and "Sin emojis en título" is emitted, so every video has a label |
| Rules.Mvp3OneCtaLabel | Youtube_MVP3.py:95-98 | for a present description exactly one of "Incluye CTA" and "Sin CTA" is emitted |
| Rules.AppGapsPerVideo | app.py:137 | one video gets at most 8 of the 10 labels |
| Rules.OptGapsPerVideo | youtube_opt.py:197 | one video gets at most 10 of the 12 labels |
| Rules.AppOrderCatalogued | gradio_app.py:7-58 | every label app.py and gradio_app.py can emit is a key of their `gap_info` |
| Rules.AppLabelsInCatalog | gradio_app.py:144 | every label of one video is a key of the 10-entry `gap_info` |
| Scenarios.MediaMentionsAI | youtube_opt.py:82 | the title "MEDIA" gets "Incluye IA" |
| Scenarios.CleanTitleScenario | app.py:71-78 | "How I Made $1000 in 30 Days 🔥" has 29 characters and gets no title label |
| Scenarios.FreeLongTitleScenario | app.py:71-78 | "FREE Secret Growth Hack You Need To Try Today Before Everyone Else Does" has 71 characters and gets exactly the four title labels, in order |
| Scenarios.EmptyDescriptionScenario | app.py:82-84 | an empty description without playlist gives the title labels, then only "Metadescripción ausente", then "Sin playlist asignada" |
| Sorting.SortDesc | app.py:196 | the sort returns a permutation of its input |
| Sorting.SortDescSorted | app.py:196 | the result is ordered by the key, largest first |
| Sorting.SortDescStable | app.py:196 | elements with equal keys keep their input order, as Python's sort with `reverse=True` does |
| Sorting.Top3 | app.py:199 | `[:3]` keeps the first min(3, n) elements |
| Sorting.TopDominates | app.py:199 | in an ordered list each of the first three is at least every element left out |
| Sorting.SelectPrefix | app.py:199 | the elements of one key in a prefix such as `[:3]` are a prefix of the elements of that key in the whole list |
| Channel.Increment | app.py:142 | the dictionary gains an item exactly when the label was not yet a key |
| Channel.IncrementSpec | app.py:142 | `gaps_count[gap] = gaps_count.get(gap, 0) + 1` adds one to that label and to the total, touches no other label, and keeps keys distinct and counts positive |
| Channel.IncrementOrder | app.py:142 | no key moves: every existing key keeps its position, and a label that was not a key is appended last with count 1 |
| Channel.FirstSeenStep | app.py:142 | one more label keeps the keys in order of first occurrence; a new label goes last |
| Channel.TallyGapsOrder | app.py:142 | counting a video's labels keeps the keys in order of first occurrence over all labels seen so far |
| Channel.TallyOrder | app.py:137-142 | the keys of `gaps_count` are every label that occurs, each once, ordered by where it first occurs across the reports |
| Channel.TallyGapsLookup | app.py:142 | counting a duplicate-free gap list adds one to exactly its labels |
| Channel.TallyGapsShape | app.py:142 | counting a gap list adds its length to the total and its labels to the keys |
| Channel.TallyCounts | app.py:142 | `gaps_count[g]` is the number of analysed videos whose list contains `g` |
| Channel.TallyShape | app.py:212 | `sum(gaps_count.values())` is the total number of labels, the keys are exactly the labels that occur, each once, each with a count of at least 1 |
| Channel.DistinctKeysCount | gradio_app.py:158 | with distinct keys the dictionary has one item per key |
| Channel.ReportsDistinct | app.py:126-143 | there are at most as many reports as entries, and no report lists a label twice |
| Channel.ReportsOrdered | app.py:137 | every report lists its labels in emission order |
| Channel.CountGaps | app.py:142 | the inner loop leaves the counts of one video's labels added to `gaps_count` |
| Channel.AnalyzeVideos | app.py:125-143 | the per-video loop: skipped entries (no id, failed detail) add nothing; `gaps_count[g]` is the number of videos with `g`, `total_videos == len(videos_report)`, the counts sum to the number of labels, the keys are in order of first occurrence |
| Ranking.DefaultsReadZero | app.py:187 | the lookup defaults "€0/mes" and "?" read as 0 euros |
| Ranking.AppCatalogShape | app.py:7-38 | every entry of app.py's `gap_info` has a positive weight and an effort below 999 |
| Ranking.OptCatalogShape | youtube_opt.py:134-142 | every entry of youtube_opt.py's `gap_info` has a positive weight |
| Ranking.Mvp3CatalogShape | Youtube_MVP3.py:120-166 | every entry of Youtube_MVP3.py's `gap_info` has a positive weight |
| Ranking.EffortOfCatalogued | app.py:152 | in a catalogue whose efforts are all below 999, a gap has an effort exactly when it is a key, and then the effort is below 999 |
| Ranking.WeightOfCatalogued | youtube_opt.py:254 | in a catalogue of positive weights, `peso > 0` exactly when the gap is a key |
| Ranking.AppCatalogEfforts | app.py:107 | in app.py a gap has an effort exactly when it is catalogued, always below 999 |
| Ranking.OptCatalogKeys | youtube_opt.py:134-142 | the seven keys of youtube_opt.py's `gap_info` |
| Ranking.Mvp3CatalogKeys | Youtube_MVP3.py:120-166 | the five keys of Youtube_MVP3.py's `gap_info` |
| Ranking.CataloguedWeightPositive | youtube_opt.py:254-255 | in every front end's catalogue, a gap passes `peso > 0` exactly when it is catalogued |
| Ranking.EuroCandidatesSpec | app.py:185-195 | app.py makes one candidate per `gaps_count` item, in dictionary order, with impact count × euros |
| Ranking.WeightCandidatesSpec | youtube_opt.py:251-262 | the candidates are exactly the items with `peso > 0`, with impact count × peso |
| Ranking.WeightCandidatesOrder | youtube_opt.py:251-262 | the candidates are the items at strictly increasing positions of `gaps_count`, exactly the positions whose `peso > 0`, each weighted count × peso: dictionary order is kept |
| Ranking.OptNeverRanked | youtube_opt.py:251-262 | "Incluye IA", "Incluye FREE/GRATIS", "Sin emojis en título", "Título sin números" and "Metadescripción ausente" are never ranked |
| Ranking.Mvp3NeverRanked | Youtube_MVP3.py:264-275 | only the five catalogued labels are ranked; "Usa emoji" and "Incluye CTA" are counted but never ranked |
| Ranking.TopThreeSpec | app.py:196-199 | the top 3 are min(3, n) of the candidates (a sub-multiset) in non-increasing impact; each is at least every candidate left out (`multiset(candidates) - multiset(top)`); among candidates of equal impact the kept ones are the first in dictionary order, in that order |
| Ranking.TopThreeDominates | app.py:196-199 | each of the top 3 is at least every candidate left out of them |
| Ranking.PrefixDominates | app.py:199 | when the first m elements of a list are at least all later ones, each of them is at least every element of the rest of the multiset |
| Ranking.TopThreeOrdered | app.py:196-199 | the top 3 are in non-increasing impact and dominate the rest |
| Ranking.TopThreeDrawn | app.py:199 | the top 3 are drawn from the candidates |
| Ranking.RankByEuros | app.py:184-199 | the loop, sort and slice give the top three of app.py's candidates |
| Ranking.RankByWeight | youtube_opt.py:251-266 | the loop, sort and slice give the top three of the weighted candidates |
| Ranking.SortingKeyUncatalogued | app.py:105-110 | `sorting_key` is (999, 0) for a gap without entry, and its effort is below 999 for a catalogued gap |
| Ranking.AppSummarySpec | app.py:170 | the summary lists every item once, by ascending `sorting_key`, ties in dictionary order |
| Ranking.CountSummarySpec | youtube_opt.py:236 | the summary lists every item once, by non-increasing count, ties in dictionary order |
| Ranking.BuildMatrix | app.py:149-159 | the loop builds the rows of `matriz` in dictionary order |
| Ranking.MatrixRowsSpec | gradio_app.py:157-171 | one row per item: its label, its count, its effort and the euro amount of its estimate |
| Ranking.SortMatrixSpec | gradio_app.py:174 | the sorted matrix holds the same rows, by effort ascending then impact descending, ties in dictionary order |
| Ranking.SortMatrixAsWritten | app.py:160-161 | the sort as written fails exactly on a matrix with no rows |
| Ranking.CataloguedMatrixComparable | app.py:152 | when every counted label is catalogued, every matrix row has a numeric effort |
| Audit.AppReportsBounded | app.py:211-212 | at most 8 labels per analysed video, all of them catalogued |
| Audit.OptReportsBounded | youtube_opt.py:273-274 | at most 10 labels per analysed video |
| Audit.Mvp3ReportsLabelled | Youtube_MVP3.py:213-218 | every analysed video has at least one label |
| Audit.AppScore | app.py:211-213 | the score is in [0, 100] when at most `len(gap_info)` labels per video are found, and it is 100 exactly when none is |
| Audit.AppScoreFloor | app.py:213 | with at most 8 labels per video the score is in [20, 100] |
| Audit.AppHealth | app.py:221-226 | critical iff score < 50, good iff score >= 70, medium otherwise |
| Audit.Bar | app.py:214-216 | `int(score / 10)` full cells and the rest empty, 10 in all; this is the bar `AuditApp` returns |
| Audit.OptScore | youtube_opt.py:273-275 | the score is in [0, 100] |
| Audit.OptScoreUnclamped | youtube_opt.py:275 | with at most 10 labels per video the clamp never applies and the score is at least 30 |
| Audit.OptVerdictOf | youtube_opt.py:282-287 | excellent iff score >= 80, the "potential" message iff score < 60 |
| Audit.AuditApp | app.py:119-226 | no listing gives the error; otherwise the reports, counts, sorted matrix, summary, top 3, a score in [20, 100], its bar of 10 cells with at least 2 full, and the health, as the functions above define them |
| Audit.AuditGradio | gradio_app.py:129-176 | the report rows and the sorted priority matrix, one row per distinct label |
| Audit.AuditOpt | youtube_opt.py:144-289 | the two early returns, then summary, top 3, the unclamped score and the verdict |
| Audit.AuditMvp3 | Youtube_MVP3.py:174-284 | no listing or no analysed video stops the script; otherwise a non-empty summary and the weighted top 3 |
| Audit.NoDetailsNoReports | app.py:132 | when every detail request fails, no video is reported |
| Audit.EmptyMatrixRaises | app.py:160-161 | when every detail request fails, the matrix is empty and app.py's and gradio_app.py's sort of it fails |

## Left out

- The downloader (`yt_dlp.YoutubeDL.extract_info`) is the two fetcher parameters. A listing or detail request that raises or returns nothing is `None`. In app.py and gradio_app.py a detail request that raises would abort the run; with `ignoreerrors` it returns `None`, which is what is modelled.
- `playlistend`/`extract_total` truncate the listing inside the downloader. The fetcher returns whatever listing it returns, so this truncation is not modelled.
- `time.time()` is the parameter `now`. A release timestamp is compared with it as a real number.
- Streamlit, Gradio, CSS, the download button, `print`, Markdown and text formatting are not modelled. This includes the `:.0f` and `int(score)` renderings, the percentage in youtube_opt.py:240 and the fire marks of app.py:197-200.
- pandas DataFrame construction, `reset_index` and the "🔥 TOP" column (app.py:162-163) are not modelled. Only the order the matrix sort imposes is.
- The display-only `gap_info` fields (`roi`, `como`, `por_que`, `tiempo`, `prioridad`, `metrica`) are not modelled. The model keeps `peso`, `esfuerzo` and `estimado_mensual`.
- The best/worst benchmark (app.py:177-181) is not modelled. It reads view counts, which the model does not carry.
- The URL-shape check of youtube_opt.py:316 is UI input validation and is not modelled.
- View count, duration and the description column of the report rows are not modelled.
- `str.upper`/`str.lower` map only ASCII and Latin-1 letters, not the full Unicode case tables.
- Regex `\d` matches only the ASCII digits, not every Unicode decimal digit.
- Floating-point arithmetic is replaced by exact real arithmetic.
- Youtube_MVP3.py's constant `CHANNEL_URL` is the parameter `channelUrl` of `AuditMvp3`.
- A missing or null description is the empty string. A missing or null title or id is the empty string. A missing flag is false.
- Audit.AuditApp: follows the corrected behaviour of the finding below. With no analysed video it stops with `NothingAnalyzed`, and an empty matrix sorts to an empty matrix. app.py raises in both cases.
- Audit.AuditGradio: sorts an empty matrix to an empty one, where gradio_app.py raises (see the finding).
- Two behaviours of the ranking code that the model keeps as written:
  - app.py:185-196 ranks every counted gap. A gap missing from `gap_info` gets the default "€0/mes" and so impact 0; it is not dropped.
  - Ties in the top 3 keep the counting dictionary's insertion order (the order in which gaps were first seen), because Python's sort is stable even with `reverse=True`.
- Timsort and pandas' sort are replaced by a stable insertion sort. Only the result is modelled (a permutation, ordered, stable), not the algorithm.

## Findings

| source | as written | input that shows it | evidently intended | confidence | as-written member | corrected member |
|---|---|---|---|---|---|---|
| app.py:160-161 | `pd.DataFrame(matriz).sort_values(by=['Esfuerzo (min)', 'Impacto (€)'], ...)` on an empty `matriz`. A frame built from no rows has no columns, so the sort raises KeyError. The same holds for gradio_app.py:173-174, and in app.py it hides the division by zero at line 213. | A channel whose listing yields videos but whose every detail request fails. It also happens when every analysed video has no gap, and in gradio_app.py whenever the listing is empty. | An empty priority matrix. With no analysed video, a "no valid videos" stop, as youtube_opt.py:209-211 does. | not executed | Ranking.SortMatrixAsWritten, Audit.EmptyMatrixRaises | Ranking.SortMatrix, Ranking.SortMatrixSpec |
