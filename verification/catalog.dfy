/** The FAQ index and the category browsing derived from it: the records shown for the
    active category and the count on each category button. */
module Catalog {
  import opened Wrappers

  /** A record's `id` as the JSON value it is. Ids are compared with `===`, so a number
      never equals a string and `null` differs from a missing (undefined) id. */
  datatype Id = NullId | MissingId | NumId(n: int) | StrId(s: string)

  datatype Faq = Faq(id: Id, question: string, answer: string, category: string, sourceUrl: Option<string>)

  /** The FAQ index: each category name with its records, in the order the index lists them. */
  type Index = seq<(string, seq<Faq>)>

  const AllCategories: string := "All Categories"

  /** The category buttons, in display order. */
  const CategoryNames: seq<string> := [AllCategories, "Account", "Payments", "Security", "API Integration"]

  /** A JSON object never repeats a key. */
  predicate DistinctNames(index: Index) {
    forall i, j :: 0 <= i < j < |index| ==> index[i].0 != index[j].0
  }

  /** `Object.values(index).flat()`: every category's records, category after category. */
  function Flatten(index: Index): (records: seq<Faq>)
    ensures forall f :: f in records <==> exists i :: 0 <= i < |index| && f in index[i].1
  {
    if |index| == 0 then []
    else
      var rest := Flatten(index[1..]);
      assert forall i :: 1 <= i < |index| ==> index[i] == index[1..][i - 1];
      index[0].1 + rest
  }

  /** Number of records in all categories together. */
  function TotalLength(index: Index): nat {
    if |index| == 0 then 0 else |index[0].1| + TotalLength(index[1..])
  }

  /** A single category flattens to its own records. */
  lemma FlattenSingle(name: string, records: seq<Faq>)
    ensures Flatten([(name, records)]) == records
  {
    assert [(name, records)][1..] == [];
  }

  /** Flattening keeps the index order: the records of an index split in two are the
      records of the first part followed by those of the second. */
  lemma {:induction false} FlattenAppend(a: Index, b: Index)
    ensures Flatten(a + b) == Flatten(a) + Flatten(b)
  {
    if |a| == 0 {
      assert a + b == b;
    } else {
      var ab := a + b;
      assert ab[0] == a[0] && ab[1..] == a[1..] + b;
      FlattenAppend(a[1..], b);
      calc {
        Flatten(ab);
        a[0].1 + Flatten(a[1..] + b);
        a[0].1 + (Flatten(a[1..]) + Flatten(b));
        Flatten(a) + Flatten(b);
      }
    }
  }

  lemma {:induction false} FlattenLength(index: Index)
    ensures |Flatten(index)| == TotalLength(index)
  {
    if |index| > 0 {
      FlattenLength(index[1..]);
    }
  }

  /** The records of category `i` sit, in their own order, right after the records of all
      the categories before it. */
  lemma FlattenBlock(index: Index, i: nat)
    requires i < |index|
    ensures TotalLength(index[..i]) + |index[i].1| <= |Flatten(index)|
    ensures Flatten(index)[TotalLength(index[..i])..TotalLength(index[..i]) + |index[i].1|] == index[i].1
  {
    var before, here, after := index[..i], [index[i]], index[i + 1..];
    assert index == before + here + after;
    FlattenAppend(before + here, after);
    FlattenAppend(before, here);
    FlattenSingle(index[i].0, index[i].1);
    FlattenLength(before);
    var n := TotalLength(before);
    assert Flatten(index) == Flatten(before) + index[i].1 + Flatten(after);
    assert Flatten(index)[n..n + |index[i].1|] == index[i].1;
  }

  /** Entry `i` is the first one named `name`. */
  predicate IsFirstNamed(index: Index, name: string, i: int) {
    && 0 <= i < |index|
    && index[i].0 == name
    && forall j :: 0 <= j < i ==> index[j].0 != name
  }

  /** `index[name] || []`: the records of the first category with that name, or none. */
  function Lookup(index: Index, name: string): (records: seq<Faq>)
    ensures (forall i :: 0 <= i < |index| ==> index[i].0 != name) ==> records == []
    ensures forall i :: IsFirstNamed(index, name, i) ==> records == index[i].1
  {
    if |index| == 0 then []
    else if index[0].0 == name then index[0].1
    else
      assert forall i :: 1 <= i < |index| ==> index[i] == index[1..][i - 1];
      Lookup(index[1..], name)
  }

  /** The records listed for the active category. */
  function Visible(index: Index, active: string): seq<Faq> {
    if active == AllCategories then Flatten(index) else Lookup(index, active)
  }

  /** The count shown on the button of category `name`. */
  function Count(index: Index, name: string): nat {
    if name == AllCategories then |Flatten(index)| else |Lookup(index, name)|
  }

  /** The category buttons with their counts: one per fixed category name, in order, each
      showing the number of records that clicking it would list. */
  function CategoryButtons(index: Index): (buttons: seq<(string, nat)>)
    ensures |buttons| == |CategoryNames|
    ensures forall i :: 0 <= i < |buttons| ==>
      buttons[i].0 == CategoryNames[i] && buttons[i].1 == |Visible(index, CategoryNames[i])|
  {
    seq(|CategoryNames|, i requires 0 <= i < |CategoryNames| => (CategoryNames[i], Count(index, CategoryNames[i])))
  }

  /** Browsing a category lists exactly that category's records when the index has it,
      and nothing when it does not; "All Categories" lists the records of every category,
      category after category in index order. */
  lemma VisibleByCategory(index: Index, name: string)
    requires DistinctNames(index)
    ensures name == AllCategories ==>
      forall f :: f in Visible(index, name) <==> exists i :: 0 <= i < |index| && f in index[i].1
    ensures name == AllCategories ==> |Visible(index, name)| == TotalLength(index)
    ensures name == AllCategories ==> forall i :: 0 <= i < |index| ==>
      && TotalLength(index[..i]) + |index[i].1| <= |Visible(index, name)|
      && Visible(index, name)[TotalLength(index[..i])..TotalLength(index[..i]) + |index[i].1|] == index[i].1
    ensures name != AllCategories ==>
      forall i :: 0 <= i < |index| && index[i].0 == name ==> Visible(index, name) == index[i].1
    ensures name != AllCategories && (forall i :: 0 <= i < |index| ==> index[i].0 != name) ==>
      Visible(index, name) == []
  {
    forall i | 0 <= i < |index| && index[i].0 == name
      ensures IsFirstNamed(index, name, i)
    {
    }
    FlattenLength(index);
    forall i | 0 <= i < |index|
      ensures TotalLength(index[..i]) + |index[i].1| <= |Flatten(index)|
      ensures Flatten(index)[TotalLength(index[..i])..TotalLength(index[..i]) + |index[i].1|] == index[i].1
    {
      FlattenBlock(index, i);
    }
  }

  /** Sum of the button counts of the index's own categories, from entry `k` on. */
  function SumOfCounts(index: Index, k: nat): nat
    requires k <= |index|
    decreases |index| - k
  {
    if k == |index| then 0 else Count(index, index[k].0) + SumOfCounts(index, k + 1)
  }

  lemma {:induction false} SumOfCountsFrom(index: Index, k: nat)
    requires k <= |index|
    requires DistinctNames(index)
    requires forall i :: 0 <= i < |index| ==> index[i].0 != AllCategories
    ensures SumOfCounts(index, k) == |Flatten(index[k..])|
    decreases |index| - k
  {
    if k < |index| {
      SumOfCountsFrom(index, k + 1);
      assert IsFirstNamed(index, index[k].0, k);
      assert index[k..][1..] == index[k + 1..];
    }
  }

  /** The "All Categories" count is the sum of the counts of the index's own categories,
      provided no category is itself named "All Categories". */
  lemma AllCountIsSum(index: Index)
    requires DistinctNames(index)
    requires forall i :: 0 <= i < |index| ==> index[i].0 != AllCategories
    ensures Count(index, AllCategories) == SumOfCounts(index, 0)
  {
    SumOfCountsFrom(index, 0);
    assert index[0..] == index;
  }
}
