/** `MapaIslas.py`: the heat-island report. Five categories of the field
    `impacto_confort_termico` (`Muy bajo` to `Muy alto`), their totals, vulnerable
    population and shares, written into the `MapaRiesgoIslasCalor` layout next to a pie of
    the totals. */
module HeatReport {
  import opened Wrappers
  import opened Text
  import opened Layout
  import Aggregation
  import Chart

  /** The categories, in the order the script lists them. */
  const Vocabulary: seq<string> := ["Muy bajo", "Bajo", "Medio", "Alto", "Muy alto"]

  /** The colour table as the script writes it: the `Muy bajo` entry lacks the `#`. */
  const ColoursAsWritten: map<string, string> :=
    map["Muy bajo" := "D1FF73", "Bajo" := "#98E600", "Medio" := "#E6E600",
        "Alto" := "#E64C00", "Muy alto" := "#E60000"]

  /** The colour table with the `#` of the `Muy bajo` entry restored. The report keeps the
      table as written; this is the table the script evidently intended. */
  const Colours: map<string, string> :=
    map["Muy bajo" := "#D1FF73", "Bajo" := "#98E600", "Medio" := "#E6E600",
        "Alto" := "#E64C00", "Muy alto" := "#E60000"]

  /** The numeric branches of the layout update, in the order they are tried: the
      percentage of `Bajo` is tried before that of `Muy bajo`. */
  const Entries: seq<Entry> := [
    Entry(MuyBajo, Vulnerable, "Muy bajo"), Entry(Bajo, Vulnerable, "Bajo"),
    Entry(Medio, Vulnerable, "Medio"), Entry(Alto, Vulnerable, "Alto"),
    Entry(MuyAlto, Vulnerable, "Muy alto"),
    Entry(MuyBajo, Total, "Muy bajo"), Entry(Bajo, Total, "Bajo"),
    Entry(Medio, Total, "Medio"), Entry(Alto, Total, "Alto"),
    Entry(MuyAlto, Total, "Muy alto"),
    Entry(Bajo, Percentage, "Bajo"), Entry(MuyBajo, Percentage, "Muy bajo"),
    Entry(Medio, Percentage, "Medio"), Entry(Alto, Percentage, "Alto"),
    Entry(MuyAlto, Percentage, "Muy alto")
  ]

  lemma VocabularyDistinct()
    ensures Aggregation.Distinct(Vocabulary)
  {
    assert Vocabulary[0][4] != Vocabulary[4][4];
  }

  // ---------------------------------------------------------------------------
  // calcularTabla
  // ---------------------------------------------------------------------------

  /** `calcularTabla`: the two sums per category, then each category's share of
      `sum(valores_suma.values())`, a sum taken again for every category. The totals do not
      change in that loop, so every share is taken of the same grand total; a zero sum makes
      the first division raise. */
  method CalculateTable(rows: seq<Aggregation.Row>) returns (r: Result<Aggregation.Tables, Aggregation.TableError>)
    ensures r == Aggregation.TableOf(rows, Vocabulary)
  {
    VocabularyDistinct();
    r := Aggregation.CalculateTableSumEachTime(rows, Vocabulary);
  }

  // ---------------------------------------------------------------------------
  // generarGrafico
  // ---------------------------------------------------------------------------

  /** As written, every category has an entry, but the `Muy bajo` one is not a `#`
      hexadecimal colour like the other four. */
  lemma ColourAsWrittenLacksHash()
    ensures forall c :: c in Vocabulary ==> c in ColoursAsWritten
    ensures !Chart.IsHexColour(ColoursAsWritten["Muy bajo"])
    ensures forall c :: c in ColoursAsWritten && c != "Muy bajo" ==> Chart.IsHexColour(ColoursAsWritten[c])
  {
    assert forall c :: c in ColoursAsWritten ==> c in Vocabulary;
  }

  /** Every category has a colour in the table as written, so the colour lookup of the chart
      never fails on the tables `calcularTabla` returns. */
  lemma ColoursCoverVocabulary(t: Aggregation.Tables)
    requires forall c :: c in Vocabulary ==> c in t.totals
    ensures Chart.PieOf(Vocabulary, t.totals, ColoursAsWritten).Success?
  {
    assert forall c :: c in Vocabulary ==> c in ColoursAsWritten;
  }

  /** Every colour of the table is a `#` hexadecimal colour. */
  lemma ColoursAreHex()
    ensures forall c :: c in Colours ==> Chart.IsHexColour(Colours[c])
  {
    assert Chart.IsHexColour(Colours["Muy bajo"]);
    assert Chart.IsHexColour(Colours["Bajo"]);
    assert Chart.IsHexColour(Colours["Medio"]);
    assert Chart.IsHexColour(Colours["Alto"]);
    assert Chart.IsHexColour(Colours["Muy alto"]);
    assert Colours.Keys == {"Muy bajo", "Bajo", "Medio", "Alto", "Muy alto"};
  }


  // ---------------------------------------------------------------------------
  // modificarElementosLayout
  // ---------------------------------------------------------------------------

  function Rules(): seq<Rule> {
    Chain(Entries)
  }

  /** Where the branch for placeholder `l`, `f` sits among the numeric branches. */
  function Position(l: Level, f: Field): (k: nat)
    ensures k < |Entries| && Entries[k].level == l && Entries[k].field == f
  {
    var column := match l case MuyBajo => 0 case Bajo => 1 case Medio => 2 case Alto => 3 case MuyAlto => 4;
    match f
    case Vulnerable => column
    case Total => 5 + column
    case Percentage =>
      10 + (if column == 0 then 1 else if column == 1 then 0 else column)
  }

  /** Each branch sits where `Position` says, so no placeholder is looked for twice. */
  lemma EntriesDistinct()
    ensures DistinctEntries(Entries)
  {
    assert forall k :: 0 <= k < |Entries| ==> Position(Entries[k].level, Entries[k].field) == k;
  }

  /** Each branch reads the category its placeholder names. */
  lemma EntriesReadOwnCategory()
    ensures forall k :: 0 <= k < |Entries| ==> Entries[k].key == Category(Entries[k].level)
  {}

  lemma CategoryInVocabulary(l: Level)
    ensures Category(l) in Vocabulary
  {
    match l
    case MuyBajo => assert Vocabulary[0] == Category(l);
    case Bajo => assert Vocabulary[1] == Category(l);
    case Medio => assert Vocabulary[2] == Category(l);
    case Alto => assert Vocabulary[3] == Category(l);
    case MuyAlto => assert Vocabulary[4] == Category(l);
  }

  /** On the tables of a successful `calcularTabla`, every key a branch reads is there. */
  lemma RulesCoverTables(rows: seq<Aggregation.Row>)
    requires Aggregation.TableOf(rows, Vocabulary).Success?
    ensures Covers(Rules(), Aggregation.TableOf(rows, Vocabulary).value)
  {
    var t := Aggregation.TableOf(rows, Vocabulary).value;
    Aggregation.TableKeys(rows, Vocabulary);
    EntriesReadOwnCategory();
    forall k | 0 <= k < |Entries|
      ensures Entries[k].key in Dictionary(Entries[k].field, t)
    {
      CategoryInVocabulary(Entries[k].level);
    }
    ChainCovers(Entries, t);
  }

  /** An element named after a placeholder, in any capitalisation, shows the value its name
      spells: its level's category, from its field's dictionary. In particular
      `riesgo_muy_bajo_porcentaje` is not captured by the `riesgo_bajo_porcentaje` branch
      tried before it. */
  lemma PlaceholderShowsItsCategory(l: Level, f: Field, name: string, text: string, inputs: Inputs)
    requires Lower(name) == Placeholder(l, f)
    requires Covers(Rules(), inputs.tables)
    ensures Category(l) in Dictionary(f, inputs.tables)
    ensures NewText(Rules(), name, text, inputs) == Render(WriteValue(f, Category(l)), inputs)
  {
    EntriesDistinct();
    EntriesReadOwnCategory();
    var k := Position(l, f);
    PlaceholderReachesOwnBranch(Entries, k, name);
    assert Rules()[k + 2] in Rules();
  }

  // ---------------------------------------------------------------------------
  // imprimir_layout
  // ---------------------------------------------------------------------------

  /** What a run ends with: the layout exported next to the pie, or the message of the
      exception caught. */
  datatype Outcome = Exported(pie: Chart.Pie) | ErrorReported(message: string)

  /** `imprimir_layout`: compute the tables, build the pie, update the layout's elements.
      An exception on the way is caught and reported as `Error: <message>`, and nothing
      after it happens. The date is the run's date, already formatted. */
  method PrintLayout(rows: seq<Aggregation.Row>, author: string, date: string, chart: string,
                     texts: seq<TextElement>, pictures: seq<PictureElement>) returns (outcome: Outcome)
    modifies set e | e in texts, set p | p in pictures
    ensures Aggregation.TableOf(rows, Vocabulary).Failure? ==>
      outcome == ErrorReported("Error: " + Aggregation.ErrorText(Aggregation.TableOf(rows, Vocabulary).error)) &&
      (forall e :: e in texts ==> e.text == old(e.text)) &&
      (forall p :: p in pictures ==> p.sourceImage == old(p.sourceImage))
    ensures Aggregation.TableOf(rows, Vocabulary).Success? ==>
      var t := Aggregation.TableOf(rows, Vocabulary).value;
      var pie := Chart.PieOf(Vocabulary, t.totals, ColoursAsWritten);
      (pie.Failure? ==>
        outcome == ErrorReported("Error: " + Chart.KeyErrorText(pie.error)) &&
        (forall e :: e in texts ==> e.text == old(e.text)) &&
        (forall p :: p in pictures ==> p.sourceImage == old(p.sourceImage))) &&
      (pie.Success? ==>
        outcome == Exported(pie.value) &&
        Covers(Rules(), t) &&
        (forall e :: e in texts ==> e.text == NewText(Rules(), e.name, old(e.text), Inputs(author, date, t))) &&
        (forall p :: p in pictures ==>
          p.sourceImage == if p.name == "grafico" then chart else old(p.sourceImage)))
  {
    var r := CalculateTable(rows);
    match r
    case Failure(e) =>
      outcome := ErrorReported("Error: " + Aggregation.ErrorText(e));
    case Success(t) =>
      var pie := Chart.PieOf(Vocabulary, t.totals, ColoursAsWritten);
      match pie
      case Failure(key) =>
        outcome := ErrorReported("Error: " + Chart.KeyErrorText(key));
      case Success(p) =>
        RulesCoverTables(rows);
        ModifyLayoutElements(texts, pictures, Rules(), Inputs(author, date, t), chart);
        outcome := Exported(p);
  }
}
