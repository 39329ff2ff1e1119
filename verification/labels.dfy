/**
 * The sentiment label chosen by `analyze_sentiment` in SAPP_SentimentAnalysis.py:
 * the scores of the inference endpoint are collected into a dictionary keyed
 * by label, ranked by score (highest first, stable), neutral labels are
 * dropped, and the first remaining label is returned capitalised;
 * "Positive" when none remains, "Unknown" on an error reply or an exception.
 */
module Labels {
  import opened Wrappers
  import opened PyStr

  /** One `{"label": ..., "score": ...}` entry. Scores are only compared, so they are integers here. */
  datatype Score = Score(name: string, score: int)

  /**
   * What the endpoint call gives: an exception (a failed request, a body that
   * is not JSON, a first element without the expected keys), a JSON object
   * with an "error" key, or a list whose first element holds the scores.
   */
  datatype SentimentReply = Raised | ErrorReply | Scores(items: seq<Score>)

  // ---------------------------------------------------------------------
  // The dictionary `{s["label"]: s["score"] for s in result[0]}`

  /** Position of the first entry with label `l`. */
  function IndexOf(d: seq<Score>, l: string): (r: Option<nat>)
    ensures r.Some? ==> r.value < |d| && d[r.value].name == l
    ensures r.Some? ==> forall k :: 0 <= k < r.value ==> d[k].name != l
    ensures r.None? ==> forall k :: 0 <= k < |d| ==> d[k].name != l
  {
    if d == [] then None
    else if d[0].name == l then Some(0)
    else match IndexOf(d[1..], l)
      case None => None
      case Some(k) => Some(k + 1)
  }

  /** Dictionary assignment: an existing key keeps its position and takes the new value; a new key goes last. */
  function Put(d: seq<Score>, s: Score): seq<Score> {
    match IndexOf(d, s.name)
    case Some(k) => d[k := s]
    case None => d + [s]
  }

  /** The dictionary built from the entries in order. */
  function Tally(items: seq<Score>): seq<Score> {
    if items == [] then [] else Put(Tally(items[..|items| - 1]), items[|items| - 1])
  }

  /** The score the last entry labelled `l` carries. */
  function LastScore(items: seq<Score>, l: string): Option<int> {
    if items == [] then None
    else if items[|items| - 1].name == l then Some(items[|items| - 1].score)
    else LastScore(items[..|items| - 1], l)
  }

  /** Appending an entry moves no label's first position and gives a new label the last one. */
  lemma {:induction false} IndexOfAppend(d: seq<Score>, x: Score, l: string)
    ensures IndexOf(d + [x], l) ==
      if IndexOf(d, l).Some? then IndexOf(d, l) else if x.name == l then Some(|d|) else None
  {
    if d != [] {
      assert (d + [x])[1..] == d[1..] + [x];
      IndexOfAppend(d[1..], x, l);
    }
  }

  /** How the dictionary changes on one assignment. */
  lemma PutShape(d: seq<Score>, x: Score)
    ensures IndexOf(d, x.name).Some? ==> Put(d, x) == d[IndexOf(d, x.name).value := x]
    ensures IndexOf(d, x.name).None? ==> Put(d, x) == d + [x]
  {
  }

  /** No label occurs twice. */
  predicate Distinct(t: seq<Score>) {
    forall i, j :: 0 <= i < j < |t| ==> t[i].name != t[j].name
  }

  /** `t` and `items` hold the same labels. */
  ghost predicate SameLabels(t: seq<Score>, items: seq<Score>) {
    forall l :: IndexOf(t, l).Some? <==> IndexOf(items, l).Some?
  }

  /** Every entry of `t` carries the score of the last entry of `items` with its label. */
  predicate KeepsLastScores(t: seq<Score>, items: seq<Score>) {
    forall k :: 0 <= k < |t| ==> LastScore(items, t[k].name) == Some(t[k].score)
  }

  /** The labels of `t` occur in `items`, and in `t` they stand in the order of their first occurrence there. */
  predicate FirstSeenOrder(t: seq<Score>, items: seq<Score>) {
    && (forall k :: 0 <= k < |t| ==> IndexOf(items, t[k].name).Some?)
    && (forall i, j :: 0 <= i < j < |t| ==>
          IndexOf(items, t[i].name).value < IndexOf(items, t[j].name).value)
  }

  /** The dictionary holds each label once. */
  lemma {:induction false} TallyDistinct(items: seq<Score>)
    ensures Distinct(Tally(items))
  {
    if items != [] {
      var front := items[..|items| - 1];
      var x := items[|items| - 1];
      TallyDistinct(front);
      var d := Tally(front);
      assert Tally(items) == Put(d, x);
      match IndexOf(d, x.name)
      case Some(p) =>
        var t := d[p := x];
        assert Put(d, x) == t;
        assert forall k :: 0 <= k < |t| ==> t[k].name == d[k].name;
      case None =>
        var t := d + [x];
        assert Put(d, x) == t;
        forall i, j | 0 <= i < j < |t| ensures t[i].name != t[j].name {
          assert t[i] == d[i];
          if j < |d| {
            assert t[j] == d[j];
          }
        }
    }
  }

  /** The dictionary holds exactly the labels of the entries. */
  lemma {:induction false} TallyLabels(items: seq<Score>)
    ensures SameLabels(Tally(items), items)
  {
    if items != [] {
      var front := items[..|items| - 1];
      var x := items[|items| - 1];
      assert items == front + [x];
      TallyLabels(front);
      var d := Tally(front);
      var t := Tally(items);
      PutShape(d, x);
      forall l ensures IndexOf(t, l).Some? <==> IndexOf(items, l).Some? {
        IndexOfAppend(front, x, l);
        if IndexOf(d, x.name).Some? {
          if IndexOf(d, l).Some? {
            assert t[IndexOf(d, l).value].name == l;
          }
          if IndexOf(t, l).Some? {
            assert d[IndexOf(t, l).value].name == l;
          }
        } else {
          IndexOfAppend(d, x, l);
        }
      }
    }
  }

  /** Each label carries the score of its last entry. */
  lemma {:induction false} TallyScores(items: seq<Score>)
    ensures KeepsLastScores(Tally(items), items)
  {
    if items != [] {
      var front := items[..|items| - 1];
      var x := items[|items| - 1];
      TallyScores(front);
      TallyDistinct(front);
      var d := Tally(front);
      assert Tally(items) == Put(d, x);
      match IndexOf(d, x.name)
      case Some(p) =>
        var t := d[p := x];
        assert Put(d, x) == t;
        forall k | 0 <= k < |t| ensures LastScore(items, t[k].name) == Some(t[k].score) {
          if k != p {
            assert t[k] == d[k];
            assert d[k].name != d[p].name;
          }
        }
      case None =>
        var t := d + [x];
        assert Put(d, x) == t;
        forall k | 0 <= k < |t| ensures LastScore(items, t[k].name) == Some(t[k].score) {
          if k < |d| {
            assert t[k] == d[k] && d[k].name != x.name;
          }
        }
    }
  }

  /** The labels stand in the order of their first entries (the tie-break order of the ranking). */
  lemma {:induction false} TallyOrder(items: seq<Score>)
    ensures FirstSeenOrder(Tally(items), items)
  {
    if items != [] {
      var front := items[..|items| - 1];
      var x := items[|items| - 1];
      assert items == front + [x];
      TallyOrder(front);
      TallyLabels(front);
      var d := Tally(front);
      assert Tally(items) == Put(d, x);
      match IndexOf(d, x.name)
      case Some(p) =>
        assert Put(d, x) == d[p := x];
        OrderKeptByUpdate(d, d[p := x], front, x);
      case None =>
        assert Put(d, x) == d + [x];
        assert IndexOf(front, x.name).None?;
        OrderKeptByAppend(d, front, x);
    }
  }

  /** Overwriting values in place keeps the first-seen order when one more item arrives. */
  lemma OrderKeptByUpdate(d: seq<Score>, t: seq<Score>, front: seq<Score>, x: Score)
    requires FirstSeenOrder(d, front)
    requires |t| == |d| && forall k :: 0 <= k < |d| ==> t[k].name == d[k].name
    ensures FirstSeenOrder(t, front + [x])
  {
    forall k | 0 <= k < |t| ensures IndexOf(front + [x], t[k].name) == IndexOf(front, d[k].name) {
      IndexOfAppend(front, x, d[k].name);
    }
  }

  /** A label seen for the first time goes after every label seen before it. */
  lemma OrderKeptByAppend(d: seq<Score>, front: seq<Score>, x: Score)
    requires FirstSeenOrder(d, front)
    requires IndexOf(front, x.name).None?
    ensures FirstSeenOrder(d + [x], front + [x])
  {
    var t, items := d + [x], front + [x];
    var pos := seq(|t|, k requires 0 <= k < |t| => if k < |d| then IndexOf(front, d[k].name).value else |front|);
    forall k | 0 <= k < |t| ensures IndexOf(items, t[k].name) == Some(pos[k]) {
      if k < |d| {
        assert t[k] == d[k];
        IndexOfAppend(front, x, d[k].name);
      } else {
        IndexOfAppend(front, x, x.name);
      }
    }
    forall i, j | 0 <= i < j < |t| ensures pos[i] < pos[j] {
      if j < |d| {
        assert IndexOf(front, d[i].name).value < IndexOf(front, d[j].name).value;
      }
    }
    OrderFromPositions(t, items, pos);
  }

  /** Labels found at increasing first positions are in first-seen order. */
  lemma OrderFromPositions(t: seq<Score>, items: seq<Score>, pos: seq<nat>)
    requires |pos| == |t|
    requires forall k :: 0 <= k < |t| ==> IndexOf(items, t[k].name) == Some(pos[k])
    requires forall i, j :: 0 <= i < j < |t| ==> pos[i] < pos[j]
    ensures FirstSeenOrder(t, items)
  {
  }

  // ---------------------------------------------------------------------
  // `sorted(..., key=lambda x: x[1], reverse=True)`

  predicate Descending(s: seq<Score>) {
    forall i, j :: 0 <= i < j < |s| ==> s[i].score >= s[j].score
  }

  /** Insert `x` before the first entry that does not outscore it, so equal scores keep their order. */
  function Insert(x: Score, s: seq<Score>): (r: seq<Score>)
    ensures |r| == |s| + 1
  {
    if s == [] || s[0].score <= x.score then [x] + s
    else [s[0]] + Insert(x, s[1..])
  }

  lemma {:induction false} InsertMembers(x: Score, s: seq<Score>)
    ensures forall e :: e in Insert(x, s) <==> e == x || e in s
  {
    if s != [] && s[0].score > x.score {
      InsertMembers(x, s[1..]);
      assert s == [s[0]] + s[1..];
    }
  }

  /** Stable sort, highest score first. */
  function Rank(d: seq<Score>): (r: seq<Score>)
    ensures |r| == |d|
  {
    if d == [] then [] else Insert(d[0], Rank(d[1..]))
  }

  /** The ranking is a permutation of the dictionary. */
  lemma {:induction false} RankPermutes(d: seq<Score>)
    ensures multiset(Rank(d)) == multiset(d)
  {
    if d != [] {
      RankPermutes(d[1..]);
      InsertAdds(d[0], Rank(d[1..]));
      assert d == [d[0]] + d[1..];
    }
  }

  lemma {:induction false} InsertAdds(x: Score, s: seq<Score>)
    ensures multiset(Insert(x, s)) == multiset(s) + multiset{x}
  {
    if s != [] && s[0].score > x.score {
      InsertAdds(x, s[1..]);
      assert s == [s[0]] + s[1..];
    }
  }

  lemma {:induction false} InsertDescending(x: Score, s: seq<Score>)
    requires Descending(s)
    ensures Descending(Insert(x, s))
  {
    if s != [] && s[0].score > x.score {
      InsertDescending(x, s[1..]);
      var r := Insert(x, s[1..]);
      InsertMembers(x, s[1..]);
      forall j | 0 <= j < |r| ensures r[j].score <= s[0].score {
        assert r[j] in r;
      }
    }
  }

  /** The ranking is ordered by score, highest first. */
  lemma {:induction false} RankDescending(d: seq<Score>)
    ensures Descending(Rank(d))
  {
    if d != [] {
      RankDescending(d[1..]);
      InsertDescending(d[0], Rank(d[1..]));
    }
  }

  // ---------------------------------------------------------------------
  // Dropping neutral labels and choosing

  /** `sent.lower() != "neutral"`, with the lower-casing of ASCII letters. */
  predicate IsNeutral(name: string) {
    LowerStr(name) == "neutral"
  }

  /** The entries whose label is not neutral, in order. */
  function NonNeutral(d: seq<Score>): (r: seq<Score>)
    ensures |r| <= |d|
  {
    if d == [] then []
    else (if IsNeutral(d[0].name) then [] else [d[0]]) + NonNeutral(d[1..])
  }

  /** Only non-neutral entries of the input survive the filter, and all of them do. */
  lemma {:induction false} NonNeutralMembers(d: seq<Score>)
    ensures forall e :: e in NonNeutral(d) <==> e in d && !IsNeutral(e.name)
  {
    if d != [] {
      NonNeutralMembers(d[1..]);
      assert d == [d[0]] + d[1..];
    }
  }

  lemma NonNeutralCons(e: Score, r: seq<Score>)
    ensures NonNeutral([e] + r) == (if IsNeutral(e.name) then [] else [e]) + NonNeutral(r)
  {
    assert ([e] + r)[1..] == r;
  }

  lemma InsertCons(x: Score, e: Score, r: seq<Score>)
    requires e.score > x.score
    ensures Insert(x, [e] + r) == [e] + Insert(x, r)
  {
    assert ([e] + r)[1..] == r;
  }

  /** An entry that outscores the whole ranked list goes first, before and after the filter. */
  lemma NonNeutralInsertFirst(x: Score, s: seq<Score>)
    requires Descending(s) && (s == [] || s[0].score <= x.score)
    ensures NonNeutral(Insert(x, s)) == if IsNeutral(x.name) then NonNeutral(s) else Insert(x, NonNeutral(s))
  {
    NonNeutralCons(x, s);
    var n := NonNeutral(s);
    if n != [] {
      NonNeutralMembers(s);
      assert n[0] in n;
      var j :| 0 <= j < |s| && s[j] == n[0];
      assert s[j].score <= s[0].score;
    }
  }

  /** Dropping neutral labels commutes with inserting into a ranked list. */
  lemma {:induction false} NonNeutralInsert(x: Score, s: seq<Score>)
    requires Descending(s)
    ensures NonNeutral(Insert(x, s)) == if IsNeutral(x.name) then NonNeutral(s) else Insert(x, NonNeutral(s))
  {
    if s == [] || s[0].score <= x.score {
      NonNeutralInsertFirst(x, s);
    } else {
      assert s == [s[0]] + s[1..];
      assert Insert(x, s) == [s[0]] + Insert(x, s[1..]);
      NonNeutralInsert(x, s[1..]);
      NonNeutralCons(s[0], Insert(x, s[1..]));
      NonNeutralCons(s[0], s[1..]);
      if IsNeutral(s[0].name) {
        assert NonNeutral(Insert(x, s)) == NonNeutral(Insert(x, s[1..]));
        assert NonNeutral(s) == NonNeutral(s[1..]);
      } else {
        assert NonNeutral(Insert(x, s)) == [s[0]] + NonNeutral(Insert(x, s[1..]));
        assert NonNeutral(s) == [s[0]] + NonNeutral(s[1..]);
        InsertCons(x, s[0], NonNeutral(s[1..]));
      }
    }
  }

  /** Ranking and then dropping neutral labels is ranking the non-neutral labels. */
  lemma {:induction false} NonNeutralRank(d: seq<Score>)
    ensures NonNeutral(Rank(d)) == Rank(NonNeutral(d))
  {
    if d != [] {
      NonNeutralRank(d[1..]);
      RankDescending(d[1..]);
      NonNeutralInsert(d[0], Rank(d[1..]));
      assert d == [d[0]] + d[1..];
      NonNeutralCons(d[0], d[1..]);
      assert Rank(d) == Insert(d[0], Rank(d[1..]));
      if IsNeutral(d[0].name) {
        assert NonNeutral(d) == NonNeutral(d[1..]);
      } else {
        assert NonNeutral(d) == [d[0]] + NonNeutral(d[1..]);
        assert ([d[0]] + NonNeutral(d[1..]))[1..] == NonNeutral(d[1..]);
        assert Rank(NonNeutral(d)) == Insert(d[0], Rank(NonNeutral(d[1..])));
      }
    }
  }

  /** Entry `k` has the highest score, and every earlier entry a strictly lower one. */
  predicate FirstMaximum(d: seq<Score>, k: int) {
    && 0 <= k < |d|
    && (forall j :: 0 <= j < |d| ==> d[j].score <= d[k].score)
    && (forall j :: 0 <= j < k ==> d[j].score < d[k].score)
  }

  /** The head of the stable ranking is the first entry with the highest score. */
  lemma {:induction false} RankHead(d: seq<Score>)
    requires d != []
    ensures exists k :: FirstMaximum(d, k) && Rank(d)[0] == d[k]
  {
    var rest := Rank(d[1..]);
    if rest == [] || rest[0].score <= d[0].score {
      if d[1..] != [] {
        RankHead(d[1..]);
        var k :| FirstMaximum(d[1..], k) && rest[0] == d[1..][k];
      }
      assert FirstMaximum(d, 0);
    } else {
      RankHead(d[1..]);
      var k :| FirstMaximum(d[1..], k) && rest[0] == d[1..][k];
      assert FirstMaximum(d, k + 1);
    }
  }

  /** The choice is "Positive" or a capitalised non-neutral label, so never "Neutral". */
  lemma PickNotNeutral(ranked: seq<Score>)
    ensures Pick(ranked) != "Neutral"
  {
    var kept := NonNeutral(ranked);
    if kept != [] {
      var l := kept[0].name;
      NonNeutralMembers(ranked);
      assert kept[0] in kept;
      CapitalizeLower(l);
      assert LowerStr("Neutral") == "neutral";
    }
  }

  /** `non_neutral[0][0].capitalize() if non_neutral else "Positive"` over the ranked entries. */
  function Pick(ranked: seq<Score>): string {
    var kept := NonNeutral(ranked);
    if kept == [] then "Positive" else Capitalize(kept[0].name)
  }

  /**
   * The label `analyze_sentiment` returns for one endpoint reply: "Unknown"
   * when the call raised or the endpoint answered with an error, and never
   * "Neutral".
   */
  function AnalyzeSentiment(reply: SentimentReply): (r: string)
    ensures reply.Raised? || reply.ErrorReply? ==> r == "Unknown"
    ensures r != "Neutral"
  {
    match reply
    case Raised => "Unknown"
    case ErrorReply => "Unknown"
    case Scores(items) =>
      PickNotNeutral(Rank(Tally(items)));
      Pick(Rank(Tally(items)))
  }

  /** Choosing from the ranking is choosing the first highest-scored non-neutral entry. */
  lemma RankedPick(t: seq<Score>)
    ensures NonNeutral(t) == [] ==> Pick(Rank(t)) == "Positive"
    ensures NonNeutral(t) != [] ==>
      exists k :: FirstMaximum(NonNeutral(t), k) && Pick(Rank(t)) == Capitalize(NonNeutral(t)[k].name)
  {
    NonNeutralRank(t);
    if NonNeutral(t) != [] {
      RankHead(NonNeutral(t));
      var k :| FirstMaximum(NonNeutral(t), k) && Rank(NonNeutral(t))[0] == NonNeutral(t)[k];
      assert Pick(Rank(t)) == Capitalize(Rank(NonNeutral(t))[0].name);
    } else {
      assert Rank(NonNeutral(t)) == [];
    }
  }

  /**
   * With scores, the label is the capitalised label with the highest score
   * among the non-neutral labels of the dictionary, ties going to the one
   * that came first; "Positive" when every label is neutral or there are none.
   * An error reply or an exception gives "Unknown".
   */
  lemma SentimentChoice(reply: SentimentReply)
    ensures reply.Raised? || reply.ErrorReply? ==> AnalyzeSentiment(reply) == "Unknown"
    ensures reply.Scores? && NonNeutral(Tally(reply.items)) == [] ==> AnalyzeSentiment(reply) == "Positive"
    ensures reply.Scores? && NonNeutral(Tally(reply.items)) != [] ==>
      exists k :: FirstMaximum(NonNeutral(Tally(reply.items)), k) &&
        AnalyzeSentiment(reply) == Capitalize(NonNeutral(Tally(reply.items))[k].name)
  {
    if reply.Scores? {
      RankedPick(Tally(reply.items));
      assert AnalyzeSentiment(reply) == Pick(Rank(Tally(reply.items)));
    }
  }

  /**
   * A label that is scored twice counts with its later score: "joy" scored 9
   * and then 1 loses to "anger" scored 5, where keeping the first score would
   * have chosen "Joy".
   */
  lemma DuplicateTakesLaterScore()
    ensures AnalyzeSentiment(Scores([Score("joy", 9), Score("anger", 5), Score("joy", 1)])) == "Anger"
  {
    DuplicateTally();
    var d := [Score("joy", 1), Score("anger", 5)];
    assert Rank([Score("anger", 5)]) == [Score("anger", 5)];
    assert Rank(d) == Insert(d[0], [Score("anger", 5)]);
    var ranked := [Score("anger", 5), Score("joy", 1)];
    assert Rank(d) == ranked;
    assert |LowerStr("anger")| == 5;
    assert NonNeutral(ranked) == [ranked[0]] + NonNeutral(ranked[1..]);
    assert Pick(ranked) == Capitalize("anger");
    CapitalizeAnger();
  }

  lemma CapitalizeAnger()
    ensures Capitalize("anger") == "Anger"
  {
    var r := Capitalize("anger");
    assert r[1..] == LowerStr("nger");
    forall k | 0 <= k < 4 ensures r[1..][k] == "nger"[k] {
      assert 'a' <= "nger"[k] <= 'z';
    }
  }

  /** The dictionary built from the example replies: the later "joy" overwrites the earlier one in place. */
  lemma DuplicateTally()
    ensures Tally([Score("joy", 9), Score("anger", 5), Score("joy", 1)]) == [Score("joy", 1), Score("anger", 5)]
  {
    var a, b, c := Score("joy", 9), Score("anger", 5), Score("joy", 1);
    assert [a][..0] == [];
    assert Tally([a]) == Put([], a) == [a];
    assert [a, b][..1] == [a];
    assert IndexOf([a], b.name) == None;
    assert Tally([a, b]) == Put([a], b) == [a, b];
    assert [a, b, c][..2] == [a, b];
    assert IndexOf([a, b], c.name) == Some(0);
    assert Tally([a, b, c]) == Put([a, b], c) == [c, b];
  }
}
