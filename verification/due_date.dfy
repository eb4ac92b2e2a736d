/**
 * `find_kidate`: the due date (期日) of a listed event, found in the text of
 * at most three elements that follow the link's parent element. The page's
 * element tree is abstracted: a link carries whether it has a parent and
 * the texts of the parent's following siblings, in document order.
 */
module DueDate {
  import opened Strings
  import opened IsoDate

  const DueDateLabel := "期日"

  /** How many following siblings are inspected. */
  const SiblingLimit := 3

  /** A sibling text that settles the search: it mentions 期日 and holds a date. */
  predicate Qualifies(text: string)
  {
    Contains(text, DueDateLabel) && SearchDate(text).Some?
  }

  /** The first date of the first qualifying text among the first `budget` texts. */
  function ScanSiblings(texts: seq<string>, budget: nat): string
    decreases budget
  {
    if budget == 0 || texts == [] then ""
    else if Qualifies(texts[0]) then SearchDate(texts[0]).value
    else ScanSiblings(texts[1..], budget - 1)
  }

  /** The value `find_kidate` returns for a link. */
  function Kidate(hasParent: bool, siblings: seq<string>): string
  {
    if !hasParent then "" else ScanSiblings(siblings, SiblingLimit)
  }

  /** Text `i` is the first qualifying one among the first `budget` texts. */
  predicate FirstQualifyingAt(texts: seq<string>, budget: nat, i: int)
  {
    0 <= i < budget && i < |texts| && Qualifies(texts[i]) &&
    forall j :: 0 <= j < i ==> !Qualifies(texts[j])
  }

  /**
   * The scan returns the first date of the first qualifying text within
   * the budget, and "" exactly when no text within the budget qualifies.
   */
  lemma {:induction false} ScanSiblingsFirst(texts: seq<string>, budget: nat)
    ensures ScanSiblings(texts, budget) == "" <==>
      forall i :: 0 <= i < budget && i < |texts| ==> !Qualifies(texts[i])
    ensures forall i :: FirstQualifyingAt(texts, budget, i) ==>
      ScanSiblings(texts, budget) == SearchDate(texts[i]).value
    decreases budget
  {
    if budget > 0 && texts != [] {
      ScanSiblingsFirst(texts[1..], budget - 1);
      if Qualifies(texts[0]) {
        SearchDateIsDate(texts[0]);
      } else {
        forall i | FirstQualifyingAt(texts, budget, i)
          ensures ScanSiblings(texts, budget) == SearchDate(texts[i]).value
        {
          assert FirstQualifyingAt(texts[1..], budget - 1, i - 1);
        }
        forall i | 1 <= i < budget && i < |texts|
          ensures Qualifies(texts[i]) == Qualifies(texts[1..][i - 1])
        {
        }
      }
    }
  }

  /** The scan depends only on the first `budget` texts. */
  lemma {:induction false} ScanSiblingsPrefix(texts: seq<string>, budget: nat)
    ensures ScanSiblings(texts, budget) == ScanSiblings(texts[..Min(budget, |texts|)], budget)
    decreases budget
  {
    var n := Min(budget, |texts|);
    if budget > 0 && texts != [] {
      ScanSiblingsPrefix(texts[1..], budget - 1);
      assert texts[..n][0] == texts[0];
      assert texts[..n][1..] == texts[1..][..Min(budget - 1, |texts[1..]|)];
    }
  }

  /** `find_kidate` looks no further than the first three siblings. */
  lemma KidateLooksAtThree(hasParent: bool, siblings: seq<string>, siblings': seq<string>)
    requires siblings[..Min(3, |siblings|)] == siblings'[..Min(3, |siblings'|)]
    ensures Kidate(hasParent, siblings) == Kidate(hasParent, siblings')
  {
    ScanSiblingsPrefix(siblings, SiblingLimit);
    ScanSiblingsPrefix(siblings', SiblingLimit);
  }

  function Min(a: int, b: int): int { if a < b then a else b }

  /** The index of the first qualifying text among the first `n`, given one exists. */
  lemma FirstQualifying(texts: seq<string>, n: nat) returns (i: nat)
    requires n <= |texts| && exists k :: 0 <= k < n && Qualifies(texts[k])
    ensures i < n && Qualifies(texts[i]) && forall j :: 0 <= j < i ==> !Qualifies(texts[j])
  {
    i := 0;
    while !Qualifies(texts[i])
      invariant i < n && forall j :: 0 <= j < i ==> !Qualifies(texts[j])
      decreases n - i
    {
      i := i + 1;
    }
  }

  /**
   * A non-empty due date is exactly a date that `to_iso` accepts, because
   * both use the same date pattern.
   */
  lemma KidateIsIsoDate(hasParent: bool, siblings: seq<string>)
    requires Kidate(hasParent, siblings) != ""
    ensures ToIso(Kidate(hasParent, siblings)) != ""
    ensures StartsWithDate(Kidate(hasParent, siblings))
  {
    var n := Min(3, |siblings|);
    ScanSiblingsFirst(siblings, SiblingLimit);
    var i := FirstQualifying(siblings, n);
    assert FirstQualifyingAt(siblings, SiblingLimit, i);
    SearchDateIsDate(siblings[i]);
  }

  /**
   * `find_kidate`, walking the siblings with a cursor for at most three
   * steps and returning as soon as a qualifying text is seen.
   */
  method FindKidate(hasParent: bool, siblings: seq<string>) returns (date: string)
    ensures date == Kidate(hasParent, siblings)
    ensures date != "" ==> ToIso(date) != ""
  {
    if !hasParent {
      return "";
    }
    var next := 0;
    for step := 0 to SiblingLimit
      invariant next == step && next <= |siblings|
      invariant ScanSiblings(siblings[next..], SiblingLimit - step) == Kidate(hasParent, siblings)
    {
      if next >= |siblings| {
        break;
      }
      var text := siblings[next];
      if Contains(text, DueDateLabel) {
        var dates := SearchDate(text);
        if dates.Some? {
          assert siblings[next..][0] == text;
          date := dates.value;
          SearchDateIsDate(text);
          return;
        }
      }
      assert siblings[next..][1..] == siblings[next + 1..];
      next := next + 1;
    }
    date := "";
  }
}
