/**
 * The first-match lookup shared by every classifier of the page: walk an
 * ordered table of `label -> keywords` entries and return the label of the
 * first entry whose keyword list is hit, or a fallback label when none is.
 * JavaScript objects keep their string keys in insertion order, so the
 * order of the table is part of the behaviour and is kept explicit here.
 */
module KeywordTable {
  import opened Text

  type Table<L> = seq<(L, seq<string>)>

  /** `keywords.some(keyword => input.includes(keyword))` */
  predicate AnyKeyword(keywords: seq<string>, input: string)
    ensures AnyKeyword(keywords, input) ==> |keywords| > 0
    ensures |keywords| == 1 ==> (AnyKeyword(keywords, input) <==> Contains(input, keywords[0]))
  {
    exists k | k in keywords :: Contains(input, k)
  }

  /** The first-match rule, entry by entry. Its meaning is stated by the lemmas below. */
  function FirstHit<L>(table: Table<L>, hit: seq<string> -> bool, fallback: L): L {
    if |table| == 0 then fallback
    else if hit(table[0].1) then table[0].0
    else FirstHit(table[1..], hit, fallback)
  }

  /** Position of the first entry that is hit, `|table|` when there is none. */
  function FirstHitIndex<L>(table: Table<L>, hit: seq<string> -> bool): (i: nat)
    ensures i <= |table|
    ensures forall j :: 0 <= j < i ==> !hit(table[j].1)
    ensures i < |table| ==> hit(table[i].1)
  {
    if |table| == 0 then 0
    else if hit(table[0].1) then 0
    else 1 + FirstHitIndex(table[1..], hit)
  }

  /** The lookup returns the label at the first hit position, or the fallback. */
  lemma {:induction false} FirstHitAt<L>(table: Table<L>, hit: seq<string> -> bool, fallback: L)
    ensures var i := FirstHitIndex(table, hit);
      FirstHit(table, hit, fallback) == if i < |table| then table[i].0 else fallback
  {
    if |table| > 0 && !hit(table[0].1) {
      FirstHitAt(table[1..], hit, fallback);
    }
  }

  /**
   * The label of an entry is returned exactly when that entry is hit and no
   * earlier one is; with no entry hit the fallback is returned.
   */
  lemma FirstHitIsFirstMatch<L>(table: Table<L>, hit: seq<string> -> bool, fallback: L, i: nat)
    requires i < |table| && hit(table[i].1)
    requires forall j :: 0 <= j < i ==> !hit(table[j].1)
    ensures FirstHit(table, hit, fallback) == table[i].0
  {
    FirstHitAt(table, hit, fallback);
  }

  lemma NoHitGivesFallback<L>(table: Table<L>, hit: seq<string> -> bool, fallback: L)
    requires forall j :: 0 <= j < |table| ==> !hit(table[j].1)
    ensures FirstHit(table, hit, fallback) == fallback
  {
    FirstHitAt(table, hit, fallback);
  }

  /** An entry that is hit bounds the search: the result is the label of that entry or of an earlier one. */
  lemma FirstHitNoLaterThan<L>(table: Table<L>, hit: seq<string> -> bool, fallback: L, i: nat)
    requires i < |table| && hit(table[i].1)
    ensures exists j :: 0 <= j <= i && FirstHit(table, hit, fallback) == table[j].0
  {
    FirstHitAt(table, hit, fallback);
    var f := FirstHitIndex(table, hit);
    assert f <= i && FirstHit(table, hit, fallback) == table[f].0;
  }

  /** An entry that is hit only when an earlier entry is also hit never decides the lookup. */
  lemma ShadowedEntryNeverFirst<L>(table: Table<L>, hit: seq<string> -> bool, earlier: nat, later: nat)
    requires earlier < later < |table|
    requires hit(table[later].1) ==> hit(table[earlier].1)
    ensures FirstHitIndex(table, hit) != later
  {
  }

  /** Anything but the fallback is the label of an entry that is hit. */
  lemma FirstHitIsHitLabelOrFallback<L>(table: Table<L>, hit: seq<string> -> bool, fallback: L)
    ensures var r := FirstHit(table, hit, fallback);
      r == fallback || exists j :: 0 <= j < |table| && table[j].0 == r && hit(table[j].1)
  {
    FirstHitAt(table, hit, fallback);
  }

  /**
   * The `for (const [label, keywords] of Object.entries(table))` loop that
   * returns on the first hit and falls through to the fallback.
   */
  method FindFirst<L>(table: Table<L>, hit: seq<string> -> bool, fallback: L) returns (r: L)
    ensures r == FirstHit(table, hit, fallback)
  {
    var n := 0;
    while n < |table|
      invariant 0 <= n <= |table|
      invariant forall j :: 0 <= j < n ==> !hit(table[j].1)
    {
      if hit(table[n].1) {
        FirstHitIsFirstMatch(table, hit, fallback, n);
        return table[n].0;
      }
      n := n + 1;
    }
    NoHitGivesFallback(table, hit, fallback);
    return fallback;
  }
}
