/** `modificarElementosLayout`, shared by both report scripts: each text element of the page
    layout goes through an ordered chain of substring tests on its lower-cased name, and the
    first test that matches decides what is written into its text; an element no test
    matches keeps its text. The picture element named exactly `grafico` gets the chart. */
module Layout {
  import opened Wrappers
  import opened Text
  import Aggregation

  // ---------------------------------------------------------------------------
  // The rule chain
  // ---------------------------------------------------------------------------

  /** Which dictionary a numeric placeholder shows. */
  datatype Field = Vulnerable | Total | Percentage

  /** The last word of a numeric placeholder's name. */
  function Suffix(f: Field): string {
    match f
    case Vulnerable => "vulnerable"
    case Total => "total"
    case Percentage => "porcentaje"
  }

  /** The risk levels as they are spelled inside placeholder names. */
  datatype Level = MuyBajo | Bajo | Medio | Alto | MuyAlto

  function Slug(l: Level): string {
    match l
    case MuyBajo => "muy_bajo"
    case Bajo => "bajo"
    case Medio => "medio"
    case Alto => "alto"
    case MuyAlto => "muy_alto"
  }

  /** The category of the census layer a level stands for. */
  function Category(l: Level): string {
    match l
    case MuyBajo => "Muy bajo"
    case Bajo => "Bajo"
    case Medio => "Medio"
    case Alto => "Alto"
    case MuyAlto => "Muy alto"
  }

  /** How a category is spelled inside a name: lower case, `_` for a space. */
  function KeySlug(key: string): (r: string)
    ensures |r| == |key|
  {
    seq(|key|, i requires 0 <= i < |key| => if key[i] == ' ' then '_' else LowerChar(key[i]))
  }

  /** Each placeholder spells the category of its level, so the `elif` that tests for it is
      the one that should read that category. */
  lemma SlugSpellsCategory(l: Level)
    ensures KeySlug(Category(l)) == Slug(l)
  {}

  /** The substring a numeric branch looks for: `riesgo_<level>_<field>`. */
  function Placeholder(l: Level, f: Field): string {
    "riesgo_" + Slug(l) + "_" + Suffix(f)
  }

  /** What a branch of the chain writes into the element's text. */
  datatype Action = WriteAuthor | WriteDate | WriteValue(field: Field, key: string)

  /** One branch: the substring it tests for and what it then writes. */
  datatype Rule = Rule(pattern: string, action: Action)

  /** A numeric branch as the scripts write it: the placeholder looked for, and the
      dictionary and key whose value it writes. */
  datatype Entry = Entry(level: Level, field: Field, key: string)

  function RuleOf(e: Entry): Rule {
    Rule(Placeholder(e.level, e.field), WriteValue(e.field, e.key))
  }

  /** The whole `if`/`elif` chain: `autor`, then `fecha`, then the numeric branches in the
      order given. */
  function Chain(entries: seq<Entry>): (rules: seq<Rule>)
    ensures |rules| == |entries| + 2
    ensures rules[0] == Rule("autor", WriteAuthor) && rules[1] == Rule("fecha", WriteDate)
    ensures forall k :: 0 <= k < |entries| ==> rules[k + 2] == RuleOf(entries[k])
  {
    [Rule("autor", WriteAuthor), Rule("fecha", WriteDate)]
      + seq(|entries|, k requires 0 <= k < |entries| => RuleOf(entries[k]))
  }

  /** No two numeric branches test for the same placeholder. */
  predicate DistinctEntries(entries: seq<Entry>) {
    forall i, j :: 0 <= i < j < |entries| ==>
      entries[i].level != entries[j].level || entries[i].field != entries[j].field
  }

  /** The index of the first rule from `k` on whose pattern occurs in `name`. */
  function FirstMatch(rules: seq<Rule>, name: string, k: nat): (r: Option<nat>)
    requires k <= |rules|
    ensures r.Some? ==> k <= r.value < |rules| && Contains(name, rules[r.value].pattern)
    ensures r.Some? ==> forall j :: k <= j < r.value ==> !Contains(name, rules[j].pattern)
    ensures r.None? <==> forall j :: k <= j < |rules| ==> !Contains(name, rules[j].pattern)
    decreases |rules| - k
  {
    if k == |rules| then None
    else if Contains(name, rules[k].pattern) then Some(k)
    else FirstMatch(rules, name, k + 1)
  }

  /** Conversely, the first rule from `k` on whose pattern occurs in `name` is the one
      `FirstMatch` finds. */
  lemma {:induction false} FirstMatchIsFirst(rules: seq<Rule>, name: string, k: nat, m: nat)
    requires k <= m < |rules| && Contains(name, rules[m].pattern)
    requires forall j :: k <= j < m ==> !Contains(name, rules[j].pattern)
    ensures FirstMatch(rules, name, k) == Some(m)
    decreases m - k
  {
    if k < m {
      FirstMatchIsFirst(rules, name, k + 1, m);
    }
  }

  /** The branch the chain takes for an element called `name`, if any. */
  function Dispatch(rules: seq<Rule>, name: string): Option<Action> {
    match FirstMatch(rules, Lower(name), 0)
    case Some(k) => Some(rules[k].action)
    case None => None
  }

  // ---------------------------------------------------------------------------
  // What is written
  // ---------------------------------------------------------------------------

  /** The author, the date of the run (`%d/%m/%Y`) and the three dictionaries. */
  datatype Inputs = Inputs(author: string, date: string, tables: Aggregation.Tables)

  function Dictionary(f: Field, t: Aggregation.Tables): map<string, int> {
    match f
    case Vulnerable => t.vulnerable
    case Total => t.totals
    case Percentage => t.percentages
  }

  /** Every key a numeric branch reads is in its dictionary. */
  predicate Covers(rules: seq<Rule>, t: Aggregation.Tables) {
    forall r :: r in rules && r.action.WriteValue? ==> r.action.key in Dictionary(r.action.field, t)
  }

  /** The chain reads only the keys its entries name: when each entry's key is in its
      field's dictionary, no branch reads a missing key. */
  lemma ChainCovers(entries: seq<Entry>, t: Aggregation.Tables)
    requires forall k :: 0 <= k < |entries| ==> entries[k].key in Dictionary(entries[k].field, t)
    ensures Covers(Chain(entries), t)
  {
    var rules := Chain(entries);
    forall r | r in rules && r.action.WriteValue?
      ensures r.action.key in Dictionary(r.action.field, t)
    {
      var k :| 0 <= k < |rules| && rules[k] == r;
    }
  }

  /** The text a branch writes. An `int` assigned to the text is shown as `str` shows it; a
      percentage is shown as Python formats the rounded float, followed by ` %`. */
  function Render(a: Action, inputs: Inputs): string
    requires a.WriteValue? ==> a.key in Dictionary(a.field, inputs.tables)
  {
    match a
    case WriteAuthor => "ELABORADO POR: " + inputs.author
    case WriteDate => "FECHA DE ELABORACIÓN: " + inputs.date
    case WriteValue(Percentage, key) => HundredthsText(inputs.tables.percentages[key]) + " %"
    case WriteValue(f, key) => IntText(Dictionary(f, inputs.tables)[key])
  }

  /** The text an element called `name` holds after the chain ran on it. */
  function NewText(rules: seq<Rule>, name: string, text: string, inputs: Inputs): string
    requires Covers(rules, inputs.tables)
  {
    match Dispatch(rules, name)
    case Some(a) => Render(a, inputs)
    case None => text
  }

  // ---------------------------------------------------------------------------
  // The layout's elements and the updates in place
  // ---------------------------------------------------------------------------

  class TextElement {
    const name: string
    var text: string

    constructor (name: string, text: string)
      ensures this.name == name && this.text == text
    {
      this.name := name;
      this.text := text;
    }
  }

  class PictureElement {
    const name: string
    var sourceImage: string

    constructor (name: string, sourceImage: string)
      ensures this.name == name && this.sourceImage == sourceImage
    {
      this.name := name;
      this.sourceImage := sourceImage;
    }
  }

  /** The loop over the layout's text elements: each element the chain matches gets the
      matched branch's text, every other one keeps its text. An element listed twice ends
      as if listed once, since what a branch writes does not depend on the old text. */
  method UpdateTextElements(elements: seq<TextElement>, rules: seq<Rule>, inputs: Inputs)
    requires Covers(rules, inputs.tables)
    modifies set e | e in elements
    ensures forall e :: e in elements ==> e.text == NewText(rules, e.name, old(e.text), inputs)
  {
    for i := 0 to |elements|
      invariant forall e :: e in elements ==>
        e.text == if e in elements[..i] then NewText(rules, e.name, old(e.text), inputs) else old(e.text)
    {
      var e := elements[i];
      match Dispatch(rules, e.name)
      case Some(a) =>
        e.text := Render(a, inputs);
      case None =>
      assert elements[..i + 1] == elements[..i] + [e];
    }
  }

  /** The loop over the picture elements: only those named exactly `grafico` (the test is
      case-sensitive) get the chart's path. */
  method UpdatePictureElements(pictures: seq<PictureElement>, chart: string)
    modifies set p | p in pictures
    ensures forall p :: p in pictures ==>
      p.sourceImage == if p.name == "grafico" then chart else old(p.sourceImage)
  {
    for i := 0 to |pictures|
      invariant forall p :: p in pictures ==>
        p.sourceImage == if p in pictures[..i] && p.name == "grafico" then chart else old(p.sourceImage)
    {
      var p := pictures[i];
      if p.name == "grafico" {
        p.sourceImage := chart;
      }
      assert pictures[..i + 1] == pictures[..i] + [p];
    }
  }

  /** `modificarElementosLayout`: the text elements, then the pictures. */
  method ModifyLayoutElements(texts: seq<TextElement>, pictures: seq<PictureElement>,
                              rules: seq<Rule>, inputs: Inputs, chart: string)
    requires Covers(rules, inputs.tables)
    modifies set e | e in texts, set p | p in pictures
    ensures forall e :: e in texts ==> e.text == NewText(rules, e.name, old(e.text), inputs)
    ensures forall p :: p in pictures ==>
      p.sourceImage == if p.name == "grafico" then chart else old(p.sourceImage)
  {
    UpdateTextElements(texts, rules, inputs);
    UpdatePictureElements(pictures, chart);
  }

  // ---------------------------------------------------------------------------
  // Properties of the chain
  // ---------------------------------------------------------------------------

  /** Any element whose lower-cased name contains `autor` gets the author line, whatever
      else its name contains. */
  lemma AuthorComesFirst(entries: seq<Entry>, name: string)
    requires Contains(Lower(name), "autor")
    ensures Dispatch(Chain(entries), name) == Some(WriteAuthor)
  {}

  /** `fecha` is tried next: it wins over every numeric placeholder. */
  lemma DateComesSecond(entries: seq<Entry>, name: string)
    requires !Contains(Lower(name), "autor") && Contains(Lower(name), "fecha")
    ensures Dispatch(Chain(entries), name) == Some(WriteDate)
  {}

  /** An element is left alone exactly when its lower-cased name contains none of the
      substrings looked for. */
  lemma UnmatchedKeepsText(entries: seq<Entry>, name: string, text: string, inputs: Inputs)
    requires Covers(Chain(entries), inputs.tables)
    ensures Dispatch(Chain(entries), name).None? <==>
      forall r :: r in Chain(entries) ==> !Contains(Lower(name), r.pattern)
    ensures Dispatch(Chain(entries), name).None? ==> NewText(Chain(entries), name, text, inputs) == text
  {
    var rules := Chain(entries);
    if forall j :: 0 <= j < |rules| ==> !Contains(Lower(name), rules[j].pattern) {
      forall r | r in rules ensures !Contains(Lower(name), r.pattern) {
        var j :| 0 <= j < |rules| && rules[j] == r;
      }
    }
  }

  /** A percentage is written as its two-decimal value followed by ` %`, and the value can
      be read back from the text. */
  lemma PercentageTextReadsBack(key: string, inputs: Inputs)
    requires key in inputs.tables.percentages
    ensures var t := Render(WriteValue(Percentage, key), inputs);
      |t| >= 2 && t[|t| - 2..] == " %" &&
      ParseHundredths(t[..|t| - 2]) == Some(inputs.tables.percentages[key])
  {
    var t := Render(WriteValue(Percentage, key), inputs);
    var v := HundredthsText(inputs.tables.percentages[key]);
    assert t == v + " %";
    assert t[..|t| - 2] == v;
    HundredthsTextRoundTrip(inputs.tables.percentages[key]);
  }

  /** A count is written as its decimal text, which reads back as the count. */
  lemma CountTextReadsBack(f: Field, key: string, inputs: Inputs)
    requires f != Percentage && key in Dictionary(f, inputs.tables)
    ensures ParseInt(Render(WriteValue(f, key), inputs)) == Some(Dictionary(f, inputs.tables)[key])
  {
    IntTextRoundTrip(Dictionary(f, inputs.tables)[key]);
  }

  // ---------------------------------------------------------------------------
  // Placeholder names are unambiguous
  // ---------------------------------------------------------------------------

  /** The character at index `j` of a placeholder, by the part of the name it falls in. */
  lemma PlaceholderChar(l: Level, f: Field, j: int)
    requires 0 <= j < |Placeholder(l, f)|
    ensures Placeholder(l, f)[j] ==
      if j < 7 then "riesgo_"[j]
      else if j < 7 + |Slug(l)| then Slug(l)[j - 7]
      else if j == 7 + |Slug(l)| then '_'
      else Suffix(f)[j - 8 - |Slug(l)|]
  {}

  /** The `g` of `riesgo` is the only `g` in a placeholder. */
  lemma OnlyOneG(l: Level, f: Field, j: int)
    requires 0 <= j < |Placeholder(l, f)| && Placeholder(l, f)[j] == 'g'
    ensures j == 4
  {
    PlaceholderChar(l, f, j);
    assert 'g' !in Slug(l) && 'g' !in Suffix(f);
  }

  /** Indices 7, 8 and 11 of a placeholder tell its level. */
  lemma LevelMarks(l1: Level, f1: Field, l2: Level, f2: Field)
    requires Placeholder(l1, f1)[7] == Placeholder(l2, f2)[7]
    requires Placeholder(l1, f1)[8] == Placeholder(l2, f2)[8]
    requires Placeholder(l1, f1)[11] == Placeholder(l2, f2)[11]
    ensures l1 == l2
  {
    PlaceholderChar(l1, f1, 7);
    PlaceholderChar(l1, f1, 8);
    PlaceholderChar(l1, f1, 11);
    PlaceholderChar(l2, f2, 7);
    PlaceholderChar(l2, f2, 8);
    PlaceholderChar(l2, f2, 11);
  }

  /** After the level, the first letter of the field tells the field. */
  lemma FieldMark(l: Level, f1: Field, f2: Field)
    requires Placeholder(l, f1)[8 + |Slug(l)|] == Placeholder(l, f2)[8 + |Slug(l)|]
    ensures f1 == f2
  {
    PlaceholderChar(l, f1, 8 + |Slug(l)|);
    PlaceholderChar(l, f2, 8 + |Slug(l)|);
  }

  /** A placeholder name contains no other placeholder name: `riesgo_alto_total` does not
      occur in `riesgo_muy_alto_total`, nor `riesgo_bajo_porcentaje` in
      `riesgo_muy_bajo_porcentaje`. An occurrence must start at index 0 (there is one `g`),
      and three characters of the level and the first of the field then tell all
      placeholders apart. */
  lemma PlaceholderOccursOnlyInItself(l1: Level, f1: Field, l2: Level, f2: Field)
    ensures Contains(Placeholder(l2, f2), Placeholder(l1, f1)) ==> l1 == l2 && f1 == f2
  {
    var s, p := Placeholder(l2, f2), Placeholder(l1, f1);
    if i :| 0 <= i <= |s| && MatchesAt(s, p, i) {
      CharAt(s, p, i, 4);
      OnlyOneG(l2, f2, i + 4);
      CharAt(s, p, 0, 7);
      CharAt(s, p, 0, 8);
      CharAt(s, p, 0, 11);
      LevelMarks(l1, f1, l2, f2);
      CharAt(s, p, 0, 8 + |Slug(l1)|);
      FieldMark(l1, f1, f2);
    }
  }

  lemma NoF(l: Level, f: Field, j: int)
    requires 0 <= j < |Placeholder(l, f)|
    ensures Placeholder(l, f)[j] != 'f'
  {
    PlaceholderChar(l, f, j);
    assert 'f' !in Slug(l) && 'f' !in Suffix(f);
  }

  lemma SlugU(l: Level, k: int)
    requires 0 <= k < |Slug(l)| && Slug(l)[k] == 'u'
    ensures k == 1 && Slug(l)[2] == 'y'
  {}

  lemma SuffixU(f: Field, k: int)
    requires 0 <= k < |Suffix(f)| && Suffix(f)[k] == 'u'
    ensures k == 1 && Suffix(f)[2] == 'l'
  {}

  /** In a placeholder a `u` is never followed by a `t`. */
  lemma NoUT(l: Level, f: Field, j: int)
    requires 0 <= j && j + 1 < |Placeholder(l, f)| && Placeholder(l, f)[j] == 'u'
    ensures Placeholder(l, f)[j + 1] != 't'
  {
    PlaceholderChar(l, f, j);
    PlaceholderChar(l, f, j + 1);
    if j < 7 + |Slug(l)| {
      SlugU(l, j - 7);
    } else {
      SuffixU(f, j - 8 - |Slug(l)|);
    }
  }

  /** Neither `autor` nor `fecha` occurs in a placeholder name, so the first two branches
      never capture a placeholder. */
  lemma PlaceholderHasNoWord(l: Level, f: Field)
    ensures !Contains(Placeholder(l, f), "autor") && !Contains(Placeholder(l, f), "fecha")
  {
    var s := Placeholder(l, f);
    if i :| 0 <= i <= |s| && MatchesAt(s, "autor", i) {
      CharAt(s, "autor", i, 1);
      CharAt(s, "autor", i, 2);
      NoUT(l, f, i + 1);
    }
    if i :| 0 <= i <= |s| && MatchesAt(s, "fecha", i) {
      CharAt(s, "fecha", i, 0);
      NoF(l, f, i);
    }
  }

  /** Each numeric placeholder, under any capitalisation, reaches its own branch: its own
      field and its own key, never a branch tried before it. */
  lemma PlaceholderReachesOwnBranch(entries: seq<Entry>, k: nat, name: string)
    requires DistinctEntries(entries) && k < |entries|
    requires Lower(name) == Placeholder(entries[k].level, entries[k].field)
    ensures Dispatch(Chain(entries), name) == Some(WriteValue(entries[k].field, entries[k].key))
  {
    var rules, s := Chain(entries), Lower(name);
    PlaceholderHasNoWord(entries[k].level, entries[k].field);
    forall j | 2 <= j < k + 2 ensures !Contains(s, rules[j].pattern) {
      PlaceholderOccursOnlyInItself(entries[j - 2].level, entries[j - 2].field, entries[k].level, entries[k].field);
    }
    assert s[0..|s|] == s;
    assert MatchesAt(s, rules[k + 2].pattern, 0);
    FirstMatchIsFirst(rules, s, 0, k + 2);
  }
}
