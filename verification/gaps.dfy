/**
 * The gap labels the four front ends emit, and the static `gap_info`
 * catalogues that attach a weight (`peso`), an effort in minutes
 * (`esfuerzo`) and a monthly euro estimate (`estimado_mensual`) to them.
 */
module Gaps {
  import opened Wrappers
  import opened PyStr

  /** The four front ends of the repository; each carries its own rule set and catalogue. */
  datatype Variant = App | YoutubeOpt | Mvp3 | Gradio

  /** Every label any of the rule functions can emit. */
  datatype Gap =
    | TituloLargo | IncluyeIA | IncluyeFreeGratis | UsaEmoji | SinEmojis | SinNumeros
    | MetadescripcionAusente | DescripcionCorta | IncluyeCTA | SinCTA | SinHashtags
    | SinPregunta | SinPlaylist | SinKeywords

  /** The exact text of each label, as it appears in the reports and as the catalogue key. */
  function Label(g: Gap): string
  {
    match g
    case TituloLargo => "Título largo"
    case IncluyeIA => "Incluye IA"
    case IncluyeFreeGratis => "Incluye FREE/GRATIS"
    case UsaEmoji => "Usa emoji"
    case SinEmojis => "Sin emojis en título"
    case SinNumeros => "Título sin números"
    case MetadescripcionAusente => "Metadescripción ausente"
    case DescripcionCorta => "Descripción corta"
    case IncluyeCTA => "Incluye CTA"
    case SinCTA => "Sin CTA"
    case SinHashtags => "Sin hashtags en descripción"
    case SinPregunta => "Sin pregunta de interacción"
    case SinPlaylist => "Sin playlist asignada"
    case SinKeywords => "Descripción sin keywords del título"
  }

  /**
   * The machine-read fields of one `gap_info` entry. The display-only fields
   * (`roi`, `como`, `por_que`, `tiempo`, `prioridad`, `metrica`) are not modelled.
   */
  datatype GapInfo = GapInfo(peso: int, esfuerzo: Option<int>, estimadoMensual: Option<string>)

  function Full(peso: int, esfuerzo: int, euros: string): GapInfo
  {
    GapInfo(peso, Some(esfuerzo), Some(euros))
  }

  function WeightOnly(peso: int): GapInfo
  {
    GapInfo(peso, None, None)
  }

  /**
   * A `gap_info` dictionary: its entries in declaration order. Lookups go
   * through `Find`, which returns the first entry for a key.
   */
  type Catalog = seq<(Gap, GapInfo)>

  /** `gap_info` of app.py, repeated verbatim in gradio_app.py. */
  const AppCatalog: Catalog := [
    (SinPlaylist, Full(20, 30, "€600/mes")),
    (DescripcionCorta, Full(15, 5, "€200/mes")),
    (SinEmojis, Full(10, 3, "€100/mes")),
    (SinCTA, Full(8, 2, "€80/mes")),
    (TituloLargo, Full(10, 8, "€120/mes")),
    (SinKeywords, Full(12, 7, "€160/mes")),
    (SinPregunta, Full(6, 2, "€50/mes")),
    (SinNumeros, Full(8, 3, "€70/mes")),
    (IncluyeFreeGratis, Full(18, 2, "€140/mes")),
    (MetadescripcionAusente, Full(25, 8, "€180/mes"))
  ]

  /** `gap_info` of youtube_opt.py. */
  const OptCatalog: Catalog := [
    (SinPlaylist, WeightOnly(20)),
    (DescripcionCorta, WeightOnly(15)),
    (TituloLargo, WeightOnly(10)),
    (SinCTA, WeightOnly(10)),
    (SinHashtags, WeightOnly(5)),
    (SinPregunta, WeightOnly(7)),
    (SinKeywords, WeightOnly(8))
  ]

  /** `gap_info` of Youtube_MVP3.py. */
  const Mvp3Catalog: Catalog := [
    (SinPlaylist, WeightOnly(20)),
    (DescripcionCorta, WeightOnly(15)),
    (TituloLargo, WeightOnly(10)),
    (SinCTA, WeightOnly(10)),
    (SinPregunta, WeightOnly(7))
  ]

  function CatalogOf(v: Variant): Catalog
  {
    match v
    case App => AppCatalog
    case Gradio => AppCatalog
    case YoutubeOpt => OptCatalog
    case Mvp3 => Mvp3Catalog
  }

  /** The keys of a catalogue. */
  function Keys(c: Catalog): set<Gap>
  {
    set i | 0 <= i < |c| :: c[i].0
  }

  /** The keys of app.py's catalogue: every label except the four that only other variants emit. */
  lemma AppCatalogKeys(g: Gap)
    ensures g in Keys(AppCatalog) <==> !(g.IncluyeIA? || g.UsaEmoji? || g.IncluyeCTA? || g.SinHashtags?)
  {
    match g
    case SinPlaylist => assert AppCatalog[0].0 == g;
    case DescripcionCorta => assert AppCatalog[1].0 == g;
    case SinEmojis => assert AppCatalog[2].0 == g;
    case SinCTA => assert AppCatalog[3].0 == g;
    case TituloLargo => assert AppCatalog[4].0 == g;
    case SinKeywords => assert AppCatalog[5].0 == g;
    case SinPregunta => assert AppCatalog[6].0 == g;
    case SinNumeros => assert AppCatalog[7].0 == g;
    case IncluyeFreeGratis => assert AppCatalog[8].0 == g;
    case MetadescripcionAusente => assert AppCatalog[9].0 == g;
    case _ =>
  }

  /** `gap_info.get(g)`: the entry for `g`, or None when the catalogue has no key `g`. */
  function Find(c: Catalog, g: Gap): (r: Option<GapInfo>)
    ensures r.Some? <==> g in Keys(c)
    ensures r.Some? ==> exists i :: 0 <= i < |c| && c[i] == (g, r.value)
  {
    if c == [] then None
    else if c[0].0 == g then Some(c[0].1)
    else
      var r := Find(c[1..], g);
      assert Keys(c) == {c[0].0} + Keys(c[1..]) by {
        forall x | x in Keys(c) ensures x in {c[0].0} + Keys(c[1..]) {
          var i :| 0 <= i < |c| && c[i].0 == x;
          if i > 0 { assert c[1..][i - 1].0 == x; }
        }
      }
      if r.Some? then
        var i :| 0 <= i < |c[1..]| && c[1..][i] == (g, r.value);
        assert c[i + 1] == (g, r.value);
        r
      else r
  }

  /** `info.get('peso', 0)`: the weight of a gap, 0 when the catalogue has no entry for it. */
  function Peso(c: Catalog, g: Gap): int
  {
    match Find(c, g)
    case Some(info) => info.peso
    case None => 0
  }

  // ---------------------------------------------------------------------------------------
  // The euro amount embedded in `estimado_mensual`

  function DigitValue(c: char): nat
    requires IsDigit(c)
  {
    c as int - '0' as int
  }

  function DigitChar(d: nat): (c: char)
    requires d < 10
    ensures IsDigit(c) && DigitValue(c) == d
  {
    ('0' as int + d) as char
  }

  predicate AllDigits(s: string)
  {
    forall k :: 0 <= k < |s| ==> IsDigit(s[k])
  }

  /** Python's `int(ds)` on a run of decimal digits. */
  function DigitsValue(ds: string): nat
    requires AllDigits(ds)
  {
    if ds == [] then 0 else 10 * DigitsValue(ds[..|ds| - 1]) + DigitValue(ds[|ds| - 1])
  }

  /** The length of the run of decimal digits at the start of `s`. */
  function DigitRun(s: string): (n: nat)
    ensures n <= |s| && AllDigits(s[..n])
    ensures n < |s| ==> !IsDigit(s[n])
  {
    if s == [] || !IsDigit(s[0]) then 0 else 1 + DigitRun(s[1..])
  }

  /**
   * `int(re.search(r'€(\d+)', s).group(1))` when the pattern matches, else 0:
   * the digits right after the leftmost '€' that is followed by a digit.
   */
  function EuroAmount(s: string): nat
    decreases |s|
  {
    if |s| < 2 then 0
    else if s[0] == '€' && IsDigit(s[1]) then
      var run := DigitRun(s[1..]);
      DigitsValue(s[1..][..run])
    else EuroAmount(s[1..])
  }

  /** The decimal text of `n`, without leading zeros. */
  function Decimal(n: nat): (ds: string)
    ensures ds != [] && AllDigits(ds)
  {
    if n < 10 then [DigitChar(n)] else Decimal(n / 10) + [DigitChar(n % 10)]
  }

  /** How the catalogues write a monthly estimate: "€" then the amount then "/mes". */
  function MonthlyEstimate(n: nat): string
  {
    "€" + Decimal(n) + "/mes"
  }

  lemma {:induction false} DecimalValue(n: nat)
    ensures DigitsValue(Decimal(n)) == n
  {
    if n >= 10 {
      var ds := Decimal(n);
      assert ds[..|ds| - 1] == Decimal(n / 10);
      DecimalValue(n / 10);
    }
  }

  lemma {:induction false} DigitRunStops(ds: string, t: string)
    requires AllDigits(ds)
    requires t == [] || !IsDigit(t[0])
    ensures DigitRun(ds + t) == |ds|
    decreases |ds|
  {
    if ds != [] {
      assert (ds + t)[1..] == ds[1..] + t;
      DigitRunStops(ds[1..], t);
    } else {
      assert ds + t == t;
    }
  }

  /** Reading the amount back from a written monthly estimate gives the amount. */
  lemma {:induction false} EuroAmountOfEstimate(n: nat)
    ensures EuroAmount(MonthlyEstimate(n)) == n
  {
    var ds := Decimal(n);
    var s := MonthlyEstimate(n);
    assert s == "€" + (ds + "/mes");
    assert s[0] == '€' && s[1] == ds[0];
    assert s[1..] == ds + "/mes";
    DigitRunStops(ds, "/mes");
    assert s[1..][..|ds|] == ds;
    DecimalValue(n);
  }

  /** A string with no '€' carries no amount: the lookup default "€0/mes" aside, the value is 0. */
  lemma {:induction false} EuroAmountWithoutSign(s: string)
    requires forall k :: 0 <= k < |s| ==> s[k] != '€'
    ensures EuroAmount(s) == 0
    decreases |s|
  {
    if |s| >= 2 {
      EuroAmountWithoutSign(s[1..]);
    }
  }
}
