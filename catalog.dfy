/** The food catalog seen by the search box and the table: the built-in
    list followed by the user's own records, substring search over it, the
    ownership test by merged index, and the text of one search-result line. */
module FoodCatalog {
  import opened FoodText

  /** The `carbs` values the model admits. Built-in records may leave it out
      (`Undefined`), hold `null`, a string, or a number; records the user adds
      or edits always hold a number. Numbers are modelled as integers. */
  datatype Carbs = Undefined | Null | Text(text: string) | Number(value: int)

  /** One food record. A missing `unit` is the empty string: the source only
      ever tests it for truthiness. */
  datatype Food = Food(name: string, carbs: Carbs, unit: string)

  /** The list `fetchFoodData` returns: built-in records first, then the
      user's records, each in its own order. */
  function Merged(base: seq<Food>, overlay: seq<Food>): (foods: seq<Food>)
    ensures |foods| == |base| + |overlay|
    ensures forall i :: 0 <= i < |base| ==> foods[i] == base[i]
    ensures forall j :: 0 <= j < |overlay| ==> foods[|base| + j] == overlay[j]
  {
    base + overlay
  }

  /** The ownership test of the table and of the delete and edit handlers:
      index `idx` of a merged list of length `foodsLength` whose last
      `userFoodsLength` records are the user's. */
  predicate IsUser(idx: int, foodsLength: int, userFoodsLength: int) {
    idx >= foodsLength - userFoodsLength
  }

  /** The test holds exactly from the first user record on; below the merged
      length, the user position `idx - |base|` is then a valid overlay index
      and names the record the merged view shows at `idx`. */
  lemma OwnershipByPosition(base: seq<Food>, overlay: seq<Food>, idx: int)
    ensures IsUser(idx, |Merged(base, overlay)|, |overlay|) <==> idx >= |base|
    ensures IsUser(idx, |Merged(base, overlay)|, |overlay|) && idx < |Merged(base, overlay)| ==>
              0 <= idx - |base| < |overlay| && Merged(base, overlay)[idx] == overlay[idx - |base|]
  {
  }

  /** The per-row `isUser` flags of the table (the delete button and the
      non-readonly inputs): exactly the rows past the built-in list. */
  function EditableRows(base: seq<Food>, overlay: seq<Food>): (flags: seq<bool>)
    ensures |flags| == |base| + |overlay|
    ensures forall i :: 0 <= i < |flags| ==> (flags[i] <==> i >= |base|)
  {
    var foods := Merged(base, overlay);
    seq(|foods|, i => IsUser(i, |foods|, |overlay|))
  }

  /** The search key: the query trimmed, then lowercased. */
  function SearchKey(query: string): string {
    Lower(Trim(query))
  }

  /** The filter test: the lowercased name contains the key. */
  predicate NameMatches(food: Food, key: string) {
    Includes(Lower(food.name), key)
  }

  /** `foods.filter(...)` with the name test. */
  function Filter(foods: seq<Food>, key: string): (matched: seq<Food>)
    ensures |matched| <= |foods|
    ensures forall f :: f in matched ==> f in foods && NameMatches(f, key)
  {
    if foods == [] then []
    else (if NameMatches(foods[0], key) then [foods[0]] else []) + Filter(foods[1..], key)
  }

  /** Filtering a concatenation filters each part: a match from the front part
      comes before every match from the back part. */
  lemma {:induction false} FilterAppend(a: seq<Food>, b: seq<Food>, key: string)
    ensures Filter(a + b, key) == Filter(a, key) + Filter(b, key)
  {
    if a != [] {
      assert (a + b)[1..] == a[1..] + b;
      FilterAppend(a[1..], b, key);
    } else {
      assert a + b == b;
    }
  }

  /** A one-record list is kept exactly when the record matches. Together with
      FilterAppend this fixes the result and its order completely. */
  lemma FilterSingle(f: Food, key: string)
    ensures Filter([f], key) == if NameMatches(f, key) then [f] else []
  {
    assert [f][1..] == [];
  }

  /** Every matching record is kept as often as it occurs, every other record
      is dropped: completeness, counted with multiplicity. */
  lemma {:induction false} FilterCount(foods: seq<Food>, key: string, f: Food)
    ensures multiset(Filter(foods, key))[f] == if NameMatches(f, key) then multiset(foods)[f] else 0
  {
    if foods != [] {
      FilterCount(foods[1..], key, f);
      assert foods == [foods[0]] + foods[1..];
      assert multiset(foods) == multiset([foods[0]]) + multiset(foods[1..]);
    }
  }

  /** When every record matches, nothing is dropped or reordered. */
  lemma {:induction false} FilterAllMatch(foods: seq<Food>, key: string)
    requires forall i :: 0 <= i < |foods| ==> NameMatches(foods[i], key)
    ensures Filter(foods, key) == foods
  {
    if foods != [] {
      FilterAllMatch(foods[1..], key);
    }
  }

  /** `searchFood`'s list of matches. An empty key yields no records and
      never looks at the lists. */
  function Search(query: string, base: seq<Food>, overlay: seq<Food>): (matched: seq<Food>)
    ensures SearchKey(query) == [] ==> matched == []
    ensures forall f :: f in matched ==> f in base + overlay && Includes(Lower(f.name), SearchKey(query))
  {
    var key := SearchKey(query);
    if key == [] then [] else Filter(Merged(base, overlay), key)
  }

  /** A query that is all white space finds nothing, whatever the lists. */
  lemma SearchBlankQuery(query: string, base: seq<Food>, overlay: seq<Food>)
    requires forall i :: 0 <= i < |query| ==> IsSpace(query[i])
    ensures Search(query, base, overlay) == []
  {
    TrimEmptyIff(query);
  }

  /** Soundness and completeness of the search with a non-empty key: a record
      of the merged view is returned exactly when its lowercased name contains
      the key, as many times as it occurs there, built-in matches first. */
  lemma SearchSpec(query: string, base: seq<Food>, overlay: seq<Food>)
    requires SearchKey(query) != []
    ensures Search(query, base, overlay) == Filter(base, SearchKey(query)) + Filter(overlay, SearchKey(query))
    ensures forall f :: f in Search(query, base, overlay) <==> f in Merged(base, overlay) && NameMatches(f, SearchKey(query))
    ensures forall f :: multiset(Search(query, base, overlay))[f] ==
                          if NameMatches(f, SearchKey(query)) then multiset(Merged(base, overlay))[f] else 0
  {
    var key := SearchKey(query);
    FilterAppend(base, overlay, key);
    forall f ensures multiset(Search(query, base, overlay))[f] ==
                       if NameMatches(f, key) then multiset(Merged(base, overlay))[f] else 0 {
      FilterCount(Merged(base, overlay), key, f);
    }
  }

  /** What the result area shows. */
  datatype Display = Cleared | NotFound | Lines(lines: seq<string>)

  /** Text shown for a record without carbs. */
  const NoCarbs := "未定義です"

  /** Carbs that are `undefined`, `null` or `""`. */
  predicate CarbsMissing(c: Carbs) {
    c.Undefined? || c.Null? || c == Text("")
  }

  /** The carbs part of a result line; `show` is the runtime's rendering of a
      number as text. */
  function CarbsText(c: Carbs, show: int -> string): (t: string)
    ensures CarbsMissing(c) <==> t == NoCarbs
    ensures !CarbsMissing(c) ==> |t| > 0 && t[|t| - 1] == 'g'
    ensures c.Text? && c.text != [] ==> t[..|t| - 1] == c.text
    ensures c.Number? ==> t[..|t| - 1] == show(c.value)
  {
    match c
    case Undefined => NoCarbs
    case Null => NoCarbs
    case Text(s) => if s == [] then NoCarbs else Grams(s)
    case Number(n) => Grams(show(n))
  }

  /** An amount followed by the gram sign, never mistaken for 未定義です. */
  function Grams(amount: string): (t: string)
    ensures t != NoCarbs && |t| > 0 && t[|t| - 1] == 'g' && t[..|t| - 1] == amount
  {
    assert (amount + "g")[|amount|] != NoCarbs[|NoCarbs| - 1];
    amount + "g"
  }

  /** The unit part of a result line. */
  function UnitText(unit: string): (t: string)
    ensures t == [] <==> unit == []
  {
    if unit != [] then "(" + unit + ")" else ""
  }

  /** The text of a result line before the carbs: the name and the label. */
  function LineHead(name: string): string {
    "<div>" + name + "：糖質量 "
  }

  /** The text of a result line after the carbs: a space, then the unit. */
  function LineTail(unit: string): string {
    " " + UnitText(unit) + "</div>"
  }

  /** One result line. */
  function ResultLine(food: Food, show: int -> string): string {
    LineHead(food.name) + CarbsText(food.carbs, show) + LineTail(food.unit)
  }

  /** A result line starts with `<div>`, the name and the label, shows the
      carbs text right after them (未定義です for missing carbs, otherwise the
      amount followed by `g`), and ends with the unit in parentheses exactly
      when the unit is non-empty. */
  lemma ResultLineShape(food: Food, show: int -> string)
    ensures var line := ResultLine(food, show);
      var head := "<div>" + food.name + "：糖質量 ";
      head <= line &&
      line[|head|..|head| + |CarbsText(food.carbs, show)|] == CarbsText(food.carbs, show) &&
      (CarbsMissing(food.carbs) ==> line[|head|..|head| + |NoCarbs|] == NoCarbs) &&
      (food.unit != [] <==> line[|line| - 7..] == ")</div>") &&
      (food.unit != [] ==> line[|line| - 8 - |food.unit|..] == "(" + food.unit + ")</div>")
  {
    var head, c, tail := LineHead(food.name), CarbsText(food.carbs, show), LineTail(food.unit);
    var line := ResultLine(food, show);
    assert line == head + c + tail;
    ThreeParts(head, c, tail);
    assert line[|head|..|head| + |c|] == c;
    TailShape(food.unit);
    SuffixOfConcat(head + c, tail, 7);
    if food.unit != [] {
      SuffixOfConcat(head + c, tail, 8 + |food.unit|);
    }
  }

  /** Where the first two parts of `head + mid + tail` sit. */
  lemma ThreeParts(head: string, mid: string, tail: string)
    ensures head <= head + mid + tail
    ensures (head + mid + tail)[|head|..|head| + |mid|] == mid
  {
    assert (head + mid + tail)[..|head|] == head;
  }

  /** The last `k` characters of `x + t` are those of `t`. */
  lemma SuffixOfConcat(x: string, t: string, k: nat)
    requires k <= |t|
    ensures (x + t)[|x + t| - k..] == t[|t| - k..]
  {
    assert (x + t)[|x|..] == t;
  }

  /** The tail ends in `)</div>` exactly when the unit is non-empty, and then
      ends in the unit in parentheses. */
  lemma TailShape(unit: string)
    ensures |LineTail(unit)| >= 7
    ensures unit != [] <==> LineTail(unit)[|LineTail(unit)| - 7..] == ")</div>"
    ensures unit != [] ==> |LineTail(unit)| >= 8 + |unit| &&
                           LineTail(unit)[|LineTail(unit)| - 8 - |unit|..] == "(" + unit + ")</div>"
  {
    var tail := LineTail(unit);
    if unit == [] {
      assert tail == " </div>";
    } else {
      assert tail == " " + ("(" + unit + ")</div>");
    }
  }

  /** `searchFood`'s whole outcome for a query against the two lists. */
  function SearchDisplay(query: string, base: seq<Food>, overlay: seq<Food>, show: int -> string): (d: Display)
    ensures d == Cleared <==> SearchKey(query) == []
    ensures d == NotFound <==> SearchKey(query) != [] && Search(query, base, overlay) == []
    ensures d.Lines? ==> |d.lines| == |Search(query, base, overlay)| > 0
    ensures d.Lines? ==> forall i :: 0 <= i < |d.lines| ==> d.lines[i] == ResultLine(Search(query, base, overlay)[i], show)
  {
    var key := SearchKey(query);
    if key == [] then Cleared
    else
      var matched := Filter(Merged(base, overlay), key);
      if |matched| > 0 then Lines(seq(|matched|, i requires 0 <= i < |matched| => ResultLine(matched[i], show)))
      else NotFound
  }
}
