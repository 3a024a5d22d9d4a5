/** `label_format`: a collection of labels rendered as one `:`-separated key. */
module FormatUtils {
  import opened Orders
  import opened Sorting
  import opened Strs

  /** `":".join(sorted(labels))`. */
  function LabelFormat(labels: seq<string>): (r: string)
    ensures |labels| == 0 ==> r == ""
    ensures |labels| == 1 ==> r == labels[0]
  {
    Join(Sort(StrLess, labels), ":")
  }

  /** The key depends only on which labels are given, not on their order. */
  lemma LabelFormatPermutation(a: seq<string>, b: seq<string>)
    requires multiset(a) == multiset(b)
    ensures LabelFormat(a) == LabelFormat(b)
  {
    StrLessIsStrictTotalOrder();
    SortDependsOnlyOnMultiset(StrLess, a, b);
  }

  /** Splitting the key on `:` gives back the labels in ascending order, when no label holds a `:`. */
  lemma LabelFormatSplit(labels: seq<string>)
    requires |labels| >= 1
    requires forall i :: 0 <= i < |labels| ==> ':' !in labels[i]
    ensures Sorted(StrLess, Split(LabelFormat(labels), ':'))
    ensures multiset(Split(LabelFormat(labels), ':')) == multiset(labels)
  {
    var s := Sort(StrLess, labels);
    forall i | 0 <= i < |s|
      ensures ':' !in s[i]
    {
      assert s[i] in multiset(labels);
    }
    SplitJoin(s, ':');
    StrLessIsStrictTotalOrder();
    SortSorted(StrLess, labels);
  }
}
