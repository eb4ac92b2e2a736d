/**
 * The keyword classifiers `guess_category` and `guess_age`: an ordered
 * keyword table is searched front to back and the tag of the first keyword
 * that occurs in the text wins; a default tag is returned otherwise. The
 * tables are Python dicts whose insertion order is their priority, so they
 * are modelled as sequences of (keyword, tag) pairs in written order.
 */
module Classify {
  import opened Strings

  type Table = seq<(string, string)>

  const CategoryMap: Table := [
    ("離乳食", "食育・栄養"), ("食育", "食育・栄養"), ("栄養", "食育・栄養"),
    ("健康", "健康・医療"), ("歯", "健康・医療"), ("医療", "健康・医療"),
    ("発達", "発達・育児相談"), ("相談", "発達・育児相談"), ("育児", "発達・育児相談"),
    ("パパ", "父親・家族支援"),
    ("ふれあい", "親子ふれあい"), ("遊び", "親子ふれあい"), ("リトミック", "親子ふれあい"),
    ("マッサージ", "親子ふれあい"), ("絵本", "親子ふれあい"), ("体操", "親子ふれあい"),
    ("ひとり親", "ひとり親支援"),
    ("産前", "産前・産後"), ("産後", "産前・産後"), ("骨盤", "産前・産後"),
    ("ヨガ", "産前・産後"), ("ピラティス", "産前・産後"), ("マタニティ", "産前・産後"),
    ("お金", "生活支援"), ("メイク", "生活支援"), ("カラー", "生活支援")
  ]

  const AgeMap: Table := [
    ("妊婦", "妊娠中"), ("妊娠中", "妊娠中"),
    ("産後", "0歳"), ("ベビー", "0歳"), ("0歳", "0歳"), ("乳児", "0歳"),
    ("1歳", "1〜2歳"), ("2歳", "1〜2歳"), ("１歳", "1〜2歳"), ("２歳", "1〜2歳"),
    ("3歳", "3〜5歳"), ("4歳", "3〜5歳"), ("5歳", "3〜5歳"), ("未就学", "3〜5歳"), ("幼児", "3〜5歳"),
    ("小学", "小学生以上"), ("乳幼児", "0歳〜未就学")
  ]

  const CategoryDefault := "その他"
  const AgeDefault := "指定なし"

  /** The tag vocabulary of `CategoryMap`, written out independently of the table. */
  const CategoryTags: set<string> := {
    "食育・栄養", "健康・医療", "発達・育児相談", "父親・家族支援", "親子ふれあい",
    "ひとり親支援", "産前・産後", "生活支援"
  }

  /** The tag vocabulary of `AgeMap`, written out independently of the table. */
  const AgeTags: set<string> := {
    "妊娠中", "0歳", "1〜2歳", "3〜5歳", "小学生以上", "0歳〜未就学"
  }

  /** No keyword of `table` occurs in `t`. */
  predicate NoKeyIn(table: Table, t: string) {
    forall i :: 0 <= i < |table| ==> !Contains(t, table[i].0)
  }

  /** Entry `i` holds the first keyword of `table` that occurs in `t`. */
  predicate FirstKeyAt(table: Table, t: string, i: int) {
    0 <= i < |table| && Contains(t, table[i].0) &&
    forall j :: 0 <= j < i ==> !Contains(t, table[j].0)
  }

  /** The shared loop of both classifiers: first keyword found wins. */
  function Lookup(table: Table, t: string, fallback: string): (r: string)
    ensures r == fallback || exists i :: 0 <= i < |table| && table[i].1 == r
  {
    if table == [] then fallback
    else if Contains(t, table[0].0) then table[0].1
    else
      var r := Lookup(table[1..], t, fallback);
      assert r != fallback ==> exists i :: 0 <= i < |table[1..]| && table[1..][i].1 == r;
      r
  }

  /**
   * `Lookup` returns the tag of the first keyword (in table order) found in
   * the text, and the fallback exactly when no keyword is found.
   */
  lemma {:induction false} LookupFirstMatch(table: Table, t: string, fallback: string)
    ensures NoKeyIn(table, t) ==> Lookup(table, t, fallback) == fallback
    ensures forall i :: FirstKeyAt(table, t, i) ==> Lookup(table, t, fallback) == table[i].1
    ensures !NoKeyIn(table, t) ==> exists i :: FirstKeyAt(table, t, i)
  {
    if table != [] {
      LookupFirstMatch(table[1..], t, fallback);
      if !Contains(t, table[0].0) {
        forall i | FirstKeyAt(table, t, i)
          ensures Lookup(table, t, fallback) == table[i].1
        {
          assert FirstKeyAt(table[1..], t, i - 1);
        }
        if !NoKeyIn(table, t) {
          assert !NoKeyIn(table[1..], t);
          var i :| FirstKeyAt(table[1..], t, i);
          assert FirstKeyAt(table, t, i + 1);
        }
      } else {
        assert FirstKeyAt(table, t, 0);
      }
    }
  }

  /** The tag of entry `j` belongs to no other entry and is not the fallback. */
  predicate UniqueTag(table: Table, fallback: string, j: int)
  {
    0 <= j < |table| && fallback != table[j].1 &&
    forall k :: 0 <= k < |table| && k != j ==> table[k].1 != table[j].1
  }

  /** A tag held by one entry only is not returned when that entry's keyword is absent. */
  lemma {:induction false} LookupMissesAbsent(table: Table, t: string, fallback: string, j: int)
    requires UniqueTag(table, fallback, j) && !Contains(t, table[j].0)
    ensures Lookup(table, t, fallback) != table[j].1
  {
    if !Contains(t, table[0].0) {
      if j == 0 {
        var r := Lookup(table[1..], t, fallback);
        if r != fallback {
          var x :| 0 <= x < |table[1..]| && table[1..][x].1 == r;
          assert table[x + 1].1 == r;
        }
      } else {
        assert UniqueTag(table[1..], fallback, j - 1) by {
          forall k | 0 <= k < |table[1..]| && k != j - 1
            ensures table[1..][k].1 != table[1..][j - 1].1
          {
            assert table[1..][k] == table[k + 1];
          }
        }
        LookupMissesAbsent(table[1..], t, fallback, j - 1);
      }
    }
  }

  /**
   * An entry whose keyword contains the keyword of an earlier entry is dead:
   * whenever it would match, the earlier one matches first, so its tag (if
   * no other entry has it) is never returned.
   */
  lemma LookupShadowed(table: Table, t: string, fallback: string, i: int, j: int)
    requires 0 <= i < j && UniqueTag(table, fallback, j) && Contains(table[j].0, table[i].0)
    ensures Lookup(table, t, fallback) != table[j].1
  {
    if Contains(t, table[j].0) {
      ContainsTransitive(t, table[j].0, table[i].0);
      LookupFirstMatch(table, t, fallback);
      var k :| FirstKeyAt(table, t, k);
      assert k <= i;
    } else {
      LookupMissesAbsent(table, t, fallback, j);
    }
  }

  /** `guess_category`: the category tag of a title. */
  function GuessCategory(t: string): (r: string)
    ensures r in CategoryTags || r == CategoryDefault
  {
    Lookup(CategoryMap, t, CategoryDefault)
  }

  /** `guess_age`: the target-age tag of a title. */
  function GuessAge(t: string): (r: string)
    ensures r in AgeTags || r == AgeDefault
  {
    Lookup(AgeMap, t, AgeDefault)
  }

  /**
   * "幼児" comes before "乳幼児" in the age table and is a piece of it, so
   * any title containing "乳幼児" is tagged "3〜5歳" first: the tag
   * "0歳〜未就学" is never produced.
   */
  lemma GuessAgeNeverInfantPreschool(t: string)
    ensures GuessAge(t) != "0歳〜未就学"
  {
    assert OccursAt(AgeMap[16].0, AgeMap[14].0, 1);
    assert UniqueTag(AgeMap, AgeDefault, 16);
    LookupShadowed(AgeMap, t, AgeDefault, 14, 16);
  }

  /** The category table's order decides between two matching keywords. */
  lemma GuessCategoryPrefersEarlierKeyword()
    ensures GuessCategory("離乳食の相談会") == "食育・栄養"
  {
    var a := "離乳食の相談会";
    assert OccursAt(a, CategoryMap[0].0, 0);
    LookupFirstMatch(CategoryMap, a, CategoryDefault);
    assert FirstKeyAt(CategoryMap, a, 0);
  }
}
