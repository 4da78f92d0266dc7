# PFM risk reports — verified model

Two ArcGIS Pro script tools build PDF reports of the population at risk:
`MapaInundacion.py` (flood risk) and `MapaIslas.py` (urban heat islands). Both do the
same three things:

- `calcularTabla` sums two fields of the census layer per risk category, then computes each
  category's percentage share.
- `modificarElementosLayout` writes those numbers into named text elements of a page
  layout. It also points the picture element `grafico` at a pie chart.
- `imprimir_layout` chains the steps and reports any exception as `Error: <message>`.

This project models that core in Dafny and proves what the scripts promise about it.

- `wrappers.dfy` (`Wrappers`): `Option` and `Result`.
- `text.dfy` (`Text`): Python's `str.lower()` on ASCII letters and the `in` substring test
  (`Contains`). Also the text Python writes for an `int` and for a percentage rounded to two
  decimals, with parsers that prove that text loses nothing.
- `aggregation.dfy` (`Aggregation`): the shared `calcularTabla` core.
  - A row of the layer is `Row(category, vulnerable, total)`.
  - A search cursor filtered by `campo = '<category>'` is `Select`.
  - The specification of the result is `TableOf`: three dictionaries keyed by the
    vocabulary, or `DivisionByZero` when the vocabulary is non-empty and its grand total is 0.
  - The nested accumulation loop (`Accumulate`, `SumCursor`) and the two variants of the
    percentage loop are methods proved to compute `TableOf`. The flood script takes the
    divisor once; the heat-island script recomputes `sum(valores_suma.values())` for every
    category.
  - Percentages are integer hundredths: the exact share rounded half to even.
- `chart.dfy` (`Chart`): the data of the pie `generarGrafico` draws, and its colour lookup,
  which raises `KeyError` on a category the colour table lacks.
- `layout.dfy` (`Layout`): the `if`/`elif` chain of `modificarElementosLayout`.
  - The chain is a list of rules: `autor`, then `fecha`, then one rule per numeric
    placeholder `riesgo_<level>_<field>`.
  - `FirstMatch` and `Dispatch` pick the first rule whose pattern occurs in the lower-cased
    element name.
  - Text and picture elements are classes whose `text` / `sourceImage` fields the update
    methods change in place.
  - The central proof is that no placeholder name contains another, for example
    `riesgo_alto_total` does not occur in `riesgo_muy_alto_total`. So each placeholder
    reaches its own branch, whatever order the branches are tried in.
- `flood_report.dfy` (`FloodReport`) and `heat_report.dfy` (`HeatReport`): each script's
  constants and steps. These are its vocabulary, colour table and rule chain, plus
  `CalculateTable` and `PrintLayout` (`imprimir_layout`).

A zero grand total is an exception, not a value: `calcularTabla` raises
`ZeroDivisionError`, and only the `except` of `imprimir_layout`
(`MapaInundacion.py:168-170`, `MapaIslas.py:161-163`) turns it into `Error: division by
zero`. The model does the same: `CalculateTable` returns `Failure(DivisionByZero)` and
`PrintLayout` turns it into `ErrorReported("Error: division by zero")` without touching the
layout. A colour lookup that raises `KeyError` is reported the same way, as
`Error: '<category>'`.

The heat-island report draws its pie with the colour table as the script writes it, whose
`Muy bajo` entry lacks the `#` (see "## Findings"); the corrected table is modelled beside
it.

The date written by the `fecha` branch is a parameter (the code reads the clock). The
chart's file path is a parameter too.

## Model

| member | source | states |
|---|---|---|
| Text.Lower | Python/MapaInundacion.py:92 | `name.lower()` keeps the length and lower-cases each ASCII letter, character by character |
| Text.LowerOfLowerCase | Python/MapaInundacion.py:92 | a lowered name has no upper-case letter, and lowering a lower-case name changes nothing |
| Text.Contains | Python/MapaInundacion.py:92 | defines `p in s` on strings; its contract is stated by `ContainsIffSplit` |
| Text.ContainsIffSplit | Python/MapaInundacion.py:92 | `p in s` holds exactly when `s` is some `u + p + v` |
| Text.Digits | Python/MapaInundacion.py:100 | the decimal digits of a count are digits with no leading zero |
| Text.DigitsRoundTrip | Python/MapaInundacion.py:100 | reading the digits of `n` back gives `n` |
| Text.IntText | Python/MapaInundacion.py:100 | defines `str` of an `int`; its contract is stated by `IntTextRoundTrip` |
| Text.IntTextRoundTrip | Python/MapaInundacion.py:100 | the text a count is written as reads back as that count, negative counts included |
| Text.HundredthsText | Python/MapaInundacion.py:120 | defines `str` of a percentage rounded to two decimals; its contract is stated by `HundredthsTextRoundTrip` |
| Text.UnsignedHundredthsText | Python/MapaInundacion.py:120 | the text of a non-negative percentage starts with a digit |
| Text.UnsignedHundredthsRoundTrip | Python/MapaInundacion.py:120 | the text of a non-negative percentage, with one or two decimals, reads back as its value in hundredths |
| Text.HundredthsTextRoundTrip | Python/MapaInundacion.py:120 | the decimal text of a percentage (one or two decimals, optional sign) reads back as the rounded value |
| Aggregation.Select | Python/MapaInundacion.py:73-75 | defines the rows the cursor filtered by `campo = '<category>'` yields, in table order; its contract is stated by `SelectExact` and `SelectCounts` |
| Aggregation.SelectExact | Python/MapaInundacion.py:73-75 | the cursor for a category yields rows of the layer, all of that category, and leaves none of that category out |
| Aggregation.SelectCounts | Python/MapaInundacion.py:73-75 | the cursor yields each row of the category exactly as many times as the layer holds it, and no row of another category |
| Aggregation.ZeroFilled | Python/MapaInundacion.py:67-69 | each dictionary starts with exactly the vocabulary as keys, every value 0 |
| Aggregation.FillStep | Python/MapaInundacion.py:72-77 | storing the sum of the next category completes one more category and leaves the later ones at 0 |
| Aggregation.Accumulate | Python/MapaInundacion.py:72-77 | after the nested loops, each category maps to the sum of `total` (resp. `pob_vulnerable`) over exactly its rows, and there are no other keys |
| Aggregation.SumCursor | Python/MapaInundacion.py:75-77 | the inner loop adds every row the cursor yields to the category's two running sums |
| Aggregation.RoundHalfEven | Python/MapaInundacion.py:82 | defines `round` of an exact quotient, ties to even; its contract is stated by `RoundHalfEvenNearest` |
| Aggregation.Percentage | Python/MapaInundacion.py:82 | defines `round(total / grand * 100, 2)` in hundredths on exact numbers; its contract is stated by `PercentageError` and `PercentageWithinBounds` |
| Aggregation.TableOf | Python/MapaInundacion.py:45-84 | defines the result of `calcularTabla`: division by zero when a category must be divided by a zero grand total, otherwise the three dictionaries; the loops are proved to compute it (`CalculateTableSumOnce`, `CalculateTableSumEachTime`) |
| Aggregation.RoundHalfEvenNearest | Python/MapaInundacion.py:82 | `round` of an exact quotient is within half a unit of `n / d`, and even on a tie |
| Aggregation.SharesMakeTable | Python/MapaInundacion.py:80-84 | the completed sums and shares of the grand total are exactly the tables `TableOf` describes |
| Aggregation.CalculateTableSumOnce | Python/MapaInundacion.py:61-84 | with the divisor taken once: returns `TableOf`, i.e. division by zero exactly when the vocabulary is non-empty and the grand total is 0, otherwise the three dictionaries (empty for an empty vocabulary, where no division runs) |
| Aggregation.CalculateTableSumEachTime | Python/MapaIslas.py:80-88 | recomputing `sum(valores_suma.values())` for every category gives the same tables as taking it once |
| Aggregation.SumOver | Python/MapaInundacion.py:80 | defines `sum(d.values())` over the keys of the vocabulary, also the divisor recomputed at `MapaIslas.py:87`; its contract is stated by `SumOverTotals` and `SumOverAgree` |
| Aggregation.ErrorText | Python/MapaInundacion.py:168-170 | defines `str(e)` of the `ZeroDivisionError` caught there, `division by zero`; used by the first ensures of each `PrintLayout` |
| Aggregation.SumOverTotals | Python/MapaInundacion.py:80 | `sum(valores_suma.values())` over the filled dictionary is the grand total of the category sums |
| Aggregation.SumTotalSnoc | Python/MapaInundacion.py:76-77 | one more row adds its `total` and `pob_vulnerable` to the running sums |
| Aggregation.GrandTotalSnoc | Python/MapaInundacion.py:72-80 | one more row raises the grand total by its `total` if its category is in the vocabulary, and by nothing otherwise |
| Aggregation.GrandTotalOfNoRows | Python/MapaInundacion.py:80-82 | an empty layer has grand total 0, and with a non-empty vocabulary its result is the division by zero |
| Aggregation.GrandTotalCountsVocabularyRows | Python/MapaInundacion.py:72-80 | the grand total is the sum of `total` over exactly the rows whose category is in the vocabulary |
| Aggregation.RowOutsideVocabularyIgnored | Python/MapaInundacion.py:72-82 | a row of a category outside the vocabulary changes no sum, no share and not whether the division fails |
| Aggregation.SameSumsSameTable | Python/MapaInundacion.py:80-84 | the result depends on the rows only through the per-category sums |
| Aggregation.TableKeys | Python/MapaInundacion.py:67-69 | the three returned dictionaries have exactly the categories of the vocabulary as keys |
| Aggregation.DistinctTail | Python/MapaInundacion.py:61 | a vocabulary without repeats keeps none after its first category |
| Aggregation.NonNegativeSum | Python/MapaInundacion.py:76-77 | sums of non-negative counts are non-negative |
| Aggregation.GrandTotalNonNegative | Python/MapaInundacion.py:80 | with non-negative counts the grand total is non-negative |
| Aggregation.CategoryTotalWithinGrand | Python/MapaInundacion.py:80 | with non-negative counts each category total lies between 0 and the grand total |
| Aggregation.PercentageWithinBounds | Python/MapaInundacion.py:82 | a category of a positive grand total gets a percentage between 0 and 100 |
| Aggregation.TablePercentagesWithinBounds | Python/MapaInundacion.py:80-82 | with non-negative counts every percentage of a successful result lies between 0 and 100 |
| Aggregation.PercentageError | Python/MapaInundacion.py:82 | the rounded percentage is within half a hundredth of `total * 100 / grand` |
| Aggregation.ExactSharesSumToHundred | Python/MapaInundacion.py:80-82 | the unrounded shares add up to exactly 100 |
| Aggregation.SumOverAgree | Python/MapaInundacion.py:80 | summing a dictionary's values reads only the entries of its keys |
| Aggregation.ErrorsSum | Python/MapaInundacion.py:80-82 | the per-category rounding errors add up to the error of the summed percentages against 100 % of the grand total |
| Aggregation.ErrorsBound | Python/MapaInundacion.py:80-82 | n rounding errors of at most half a hundredth each add up to at most n half-hundredths |
| Aggregation.NearSharesNearHundred | Python/MapaInundacion.py:80-82 | percentages each within half a hundredth of their exact share add up to 100 within half a hundredth per category |
| Aggregation.PercentagesNearHundred | Python/MapaInundacion.py:80-82 | any dictionary holding the rounded share of every category adds up to 100 within half a hundredth per category |
| Aggregation.RoundedPercentagesNearHundred | Python/MapaInundacion.py:80-82 | the rounded percentages add up to 100 within half a hundredth per category |
| Chart.KeyErrorText | Python/MapaInundacion.py:30 | defines `str` of the `KeyError` the colour lookup raises: the quoted category; used by `PrintLayout` |
| Chart.PieOf | Python/MapaInundacion.py:18-30 | the pie has one slice per key of the totals, in order, with its total and its colour; the lookup fails exactly when a category has no colour, naming the first one |
| Layout.Placeholder | Python/MapaInundacion.py:99-126 | defines the substring `riesgo_<level>_<field>` a numeric branch looks for; its contract is stated by `SlugSpellsCategory`, `PlaceholderOccursOnlyInItself` and `PlaceholderHasNoWord` |
| Layout.SlugSpellsCategory | Python/MapaInundacion.py:99-126 | each placeholder spells its category (lower case, `_` for a space) |
| Layout.Chain | Python/MapaInundacion.py:92-126 | the chain tests `autor`, then `fecha`, then the numeric placeholders in the order given |
| Layout.FirstMatch | Python/MapaInundacion.py:92-126 | finds the first rule whose pattern occurs in the name, or none exactly when no pattern occurs |
| Layout.FirstMatchIsFirst | Python/MapaInundacion.py:92-126 | conversely, the first rule whose pattern occurs is the one taken |
| Layout.Dispatch | Python/MapaInundacion.py:92-126 | defines the branch the chain takes for a name: the first rule whose pattern occurs in the lower-cased name (`FirstMatch`) |
| Layout.Render | Python/MapaInundacion.py:93-126 | defines the text a branch writes: the author and date lines, a count as `str` shows it, a percentage followed by ` %`; stated by `PercentageTextReadsBack` and `CountTextReadsBack` |
| Layout.NewText | Python/MapaInundacion.py:90-126 | defines an element's text after the chain: the text of the branch taken, or the old text when none is; stated by `UnmatchedKeepsText` and the `PlaceholderShowsItsCategory` lemmas |
| Layout.ChainCovers | Python/MapaInundacion.py:99-126 | the branches read only the keys their placeholders name, so none reads a missing key when those keys are present |
| Layout.UpdateTextElements | Python/MapaInundacion.py:90-126 | every text element gets the text of the first matching branch, or keeps its text when none matches, even when an element is listed twice |
| Layout.UpdatePictureElements | Python/MapaInundacion.py:129-131 | only pictures named exactly `grafico` (case-sensitive) get the chart's path; the others keep theirs |
| Layout.ModifyLayoutElements | Python/MapaInundacion.py:87-131 | the text elements, then the pictures, are updated as above |
| Layout.AuthorComesFirst | Python/MapaInundacion.py:92-93 | a name containing `autor` gets the author line, whatever else it contains |
| Layout.DateComesSecond | Python/MapaInundacion.py:94-96 | a name containing `fecha` but not `autor` gets the date line, before any placeholder |
| Layout.UnmatchedKeepsText | Python/MapaInundacion.py:90-126 | an element is left alone exactly when its lowered name contains none of the substrings looked for |
| Layout.PercentageTextReadsBack | Python/MapaInundacion.py:119-126 | a percentage is written as its value followed by ` %`, and the value reads back from the text |
| Layout.CountTextReadsBack | Python/MapaInundacion.py:99-116 | a count is written as a text that reads back as the count |
| Layout.PlaceholderOccursOnlyInItself | Python/MapaInundacion.py:99-126 | no placeholder name occurs inside a different one, e.g. `riesgo_alto_total` not in `riesgo_muy_alto_total` |
| Layout.PlaceholderHasNoWord | Python/MapaInundacion.py:92-96 | neither `autor` nor `fecha` occurs in a placeholder name |
| Layout.PlaceholderReachesOwnBranch | Python/MapaInundacion.py:99-126 | with no placeholder looked for twice, a placeholder in any capitalisation reaches its own branch, field and key |
| FloodReport.VocabularyDistinct | Python/MapaInundacion.py:61 | the four categories are distinct |
| FloodReport.CalculateTable | Python/MapaInundacion.py:45-84 | `calcularTabla` returns the tables for `Bajo`, `Medio`, `Alto`, `Muy alto`, or division by zero exactly when the grand total is 0 |
| FloodReport.ColoursCoverVocabulary | Python/MapaInundacion.py:24-30 | every category has a colour, so the colour lookup never fails on the result of `calcularTabla` |
| FloodReport.ColoursAreHex | Python/MapaInundacion.py:24-29 | every colour of the table is a `#` hexadecimal colour |
| FloodReport.Position | Python/MapaInundacion.py:99-126 | each of the 12 placeholders has a branch |
| FloodReport.EntriesDistinct | Python/MapaInundacion.py:99-126 | no placeholder is looked for twice |
| FloodReport.EntriesReadOwnCategory | Python/MapaInundacion.py:99-126 | each branch reads the category its placeholder names |
| FloodReport.CategoryInVocabulary | Python/MapaInundacion.py:61 | each level with a placeholder names a category of the vocabulary |
| FloodReport.RulesCoverTables | Python/MapaInundacion.py:99-126 | on the result of `calcularTabla`, no branch reads a missing key |
| FloodReport.PlaceholderShowsItsCategory | Python/MapaInundacion.py:99-126 | an element named after a placeholder, in any capitalisation, shows its own category's value from its own dictionary |
| FloodReport.PrintLayout | Python/MapaInundacion.py:134-170 | a zero grand total ends in `Error: division by zero` with the layout untouched; a category without a colour ends in `Error: '<category>'` with the layout untouched; otherwise the pie is built and every element updated as `modificarElementosLayout` does |
| HeatReport.VocabularyDistinct | Python/MapaIslas.py:51-57 | the five categories are distinct |
| HeatReport.CalculateTable | Python/MapaIslas.py:39-88 | `calcularTabla` returns the tables for the five categories, or division by zero exactly when the grand total is 0 |
| HeatReport.ColourAsWrittenLacksHash | Python/MapaIslas.py:19-25 | every category has an entry, but the `Muy bajo` colour is not a `#` hexadecimal colour like the other four |
| HeatReport.ColoursCoverVocabulary | Python/MapaIslas.py:19-26 | every category has a colour in the table as written, so the colour lookup never fails on the result of `calcularTabla` |
| HeatReport.ColoursAreHex | Python/MapaIslas.py:19-25 | with the `#` restored, every colour of the table is a `#` hexadecimal colour |
| HeatReport.Position | Python/MapaIslas.py:97-126 | each of the 15 placeholders has a branch |
| HeatReport.EntriesDistinct | Python/MapaIslas.py:97-126 | no placeholder is looked for twice |
| HeatReport.EntriesReadOwnCategory | Python/MapaIslas.py:97-126 | each branch reads the category its placeholder names |
| HeatReport.CategoryInVocabulary | Python/MapaIslas.py:51-57 | each level names a category of the vocabulary |
| HeatReport.RulesCoverTables | Python/MapaIslas.py:97-126 | on the result of `calcularTabla`, no branch reads a missing key |
| HeatReport.PlaceholderShowsItsCategory | Python/MapaIslas.py:97-126 | an element named after a placeholder shows its own category's value, so `riesgo_muy_bajo_porcentaje` is not captured by the `riesgo_bajo_porcentaje` branch tried before it |
| HeatReport.PrintLayout | Python/MapaIslas.py:131-163 | a zero grand total ends in `Error: division by zero` with the layout untouched; a category without a colour ends in `Error: '<category>'` with the layout untouched; otherwise the pie is built from the colour table as written and every element updated |

## Left out

- ArcGIS access is not modelled: the project, maps, layers, layouts and `SearchCursor`. The layer is a sequence of rows and the layout two sequences of elements, in listing order. The failures of those lookups are not modelled either, for example `[0]` on an empty list or a missing layer. Only the zero grand total and a missing colour are modelled as error paths.
- The filter field is not modelled. It is `riesgo` in one script and `impacto_confort_termico` in the other. A row carries its category directly.
- The SQL `where` clause is exact category equality. Its quoting is irrelevant with these fixed categories.
- Counts are unbounded integers. A null field in the layer (`None`) is not modelled.
- Aggregation.RoundHalfEven: rounds the exact share. Python rounds the float `t / g * 100`, which can differ in the last digit and at ties.
- Aggregation.RoundedPercentagesNearHundred: claims 100 within half a hundredth per category, not exactly 100, because of that rounding.
- Text.HundredthsText: gives Python's `str` of the float nearest to the value in hundredths, with the shortest decimal of one or two places. It does not cover floats that print otherwise.
- The numeric branches assign an `int` to `element.text`. The model writes it as Python's `str` of the count. The host's own conversion is not shown.
- Text.Lower: lower-cases ASCII letters only. Python's `lower()` also maps other letters, and the patterns looked for are ASCII.
- Layout.NewText: requires that every key a branch reads is present, so a `KeyError` there is not modelled. `RulesCoverTables` proves no key is ever missing for either report.
- `datetime.now().strftime("%d/%m/%Y")` is not modelled: the date string is a parameter.
- Plotly is not modelled: the figure, `textfont`, `showlegend` and `write_image`. Nor is `exportToPDF`. The pie is its data only.
- The scratch-folder paths, the PDF name and `SetParameterAsText` are not modelled. `PrintLayout` ends with `Exported` instead.
- `arcpy.AddMessage`, `AddError` and `print` are not modelled. An error report is the message text `Error: <message>`.
- `app/js/main.js` (browser UI and asynchronous geoprocessing jobs) is not part of this model.

## Findings

| source | as written | input that shows it | evidently intended | confidence | as-written member | corrected member |
|---|---|---|---|---|---|---|
| Python/MapaIslas.py:20 | the `Muy bajo` colour is `"D1FF73"`, without the `#` the other four colours have | any run that reaches the chart: the vocabulary always contains `Muy bajo`, so its slice always gets this string | `"#D1FF73"` | not executed; high that the `#` is missing, unverified whether Plotly rejects the bare string | HeatReport.ColourAsWrittenLacksHash | HeatReport.ColoursAreHex |
