/** `generarGrafico`: the pie chart of the category totals. What is modelled is the data the
    chart is built from (labels, values and one colour per slice) and the colour lookup,
    which raises `KeyError` for a category the colour table lacks. */
module Chart {
  import opened Wrappers

  /** The data of the pie: slice labels, slice values and slice colours, in slice order. */
  datatype Pie = Pie(labels: seq<string>, values: seq<int>, colours: seq<string>)

  /** What `str(e)` gives for the `KeyError` raised by a missing dictionary key. */
  function KeyErrorText(key: string): string {
    "'" + key + "'"
  }

  /** Slices for `categories` (the keys of the totals dictionary, in its order), their totals
      and their colours from `table`. The colour lookup fails on the first category `table`
      does not have, and then that category is the error. */
  function PieOf(categories: seq<string>, totals: map<string, int>, table: map<string, string>): (r: Result<Pie, string>)
    requires forall c :: c in categories ==> c in totals
    ensures r.Success? <==> forall c :: c in categories ==> c in table
    ensures r.Success? ==>
      |r.value.labels| == |r.value.values| == |r.value.colours| == |categories| &&
      forall i :: 0 <= i < |categories| ==>
        r.value.labels[i] == categories[i] &&
        r.value.values[i] == totals[categories[i]] &&
        r.value.colours[i] == table[categories[i]]
    ensures r.Failure? ==>
      exists i :: 0 <= i < |categories| && categories[i] == r.error && r.error !in table &&
        forall j :: 0 <= j < i ==> categories[j] in table
  {
    if categories == [] then Success(Pie([], [], []))
    else
      var c := categories[0];
      if c !in table then
        assert categories[0] == c;
        Failure(c)
      else
        match PieOf(categories[1..], totals, table)
        case Failure(k) =>
          assert forall c' :: c' in categories[1..] ==> c' in categories;
          var i :| 0 <= i < |categories[1..]| && categories[1..][i] == k && k !in table &&
            forall j :: 0 <= j < i ==> categories[1..][j] in table;
          assert categories[i + 1] == k;
          Failure(k)
        case Success(p) =>
          Success(Pie([c] + p.labels, [totals[c]] + p.values, [table[c]] + p.colours))
  }

  predicate IsHexDigit(c: char) {
    '0' <= c <= '9' || 'A' <= c <= 'F' || 'a' <= c <= 'f'
  }

  /** A colour written as `#` and six hexadecimal digits. */
  predicate IsHexColour(s: string) {
    |s| == 7 && s[0] == '#' && forall i :: 1 <= i < 7 ==> IsHexDigit(s[i])
  }
}
