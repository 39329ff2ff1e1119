/**
 * The topic filter of `categorize_with_openai` in SAPP_SentimentAnalysis.py:
 * the classifier's reply is stripped, split on ", ", reduced to the entries
 * that are known categories, and joined again; "Generic" when no entry is a
 * known category.
 */
module Topics {
  import opened PyStr

  /** The fixed category list. */
  const Categories: seq<string> := [
    "Map/ Location",
    "Payment",
    "Rider Performance",
    "Sanitary",
    "Booking Experience",
    "Promo Code",
    "Pricing",
    "Customer Service",
    "Management",
    "App Performance",
    "Generic"
  ]

  const Separator: string := ", "

  /** `[topic for topic in topics if topic in CATEGORIES]` */
  function KeepCategories(parts: seq<string>): (kept: seq<string>)
    ensures |kept| <= |parts|
    ensures multiset(kept) <= multiset(parts)
    ensures forall t :: t in kept ==> t in Categories
  {
    if parts == [] then []
    else
      assert parts == [parts[0]] + parts[1..];
      (if parts[0] in Categories then [parts[0]] else []) + KeepCategories(parts[1..])
  }

  /**
   * Filtering a list is filtering its two halves and putting the results
   * side by side, so the kept entries stay in the order of the reply.
   */
  lemma {:induction false} KeepCategoriesAppend(a: seq<string>, b: seq<string>)
    ensures KeepCategories(a + b) == KeepCategories(a) + KeepCategories(b)
  {
    if a != [] {
      assert (a + b)[1..] == a[1..] + b;
      KeepCategoriesAppend(a[1..], b);
    } else {
      assert a + b == b;
    }
  }

  /** One entry: kept exactly when it is a category. */
  lemma KeepCategoriesOne(t: string)
    ensures KeepCategories([t]) == if t in Categories then [t] else []
  {
  }

  /**
   * The string the topic filter returns for one classifier reply. Splitting
   * it on ", " gives back the valid entries in the order and multiplicity of
   * the reply, or exactly ["Generic"] when no entry of the reply was a
   * category.
   */
  function FilterTopics(reply: string): (r: string)
    ensures var valid := KeepCategories(Split(Strip(reply), Separator));
      Split(r, Separator) == if valid == [] then ["Generic"] else valid
  {
    var valid := KeepCategories(Split(Strip(reply), Separator));
    if valid == [] then
      GenericIsCategory();
      CategoriesReparse(["Generic"]);
      "Generic"
    else
      CategoriesReparse(valid);
      Join(valid, Separator)
  }

  /** Every entry that is a category survives, as often as it occurs; every other entry is dropped. */
  lemma {:induction false} KeepCategoriesCounts(parts: seq<string>)
    ensures forall t :: multiset(KeepCategories(parts))[t] == if t in Categories then multiset(parts)[t] else 0
  {
    if parts != [] {
      KeepCategoriesCounts(parts[1..]);
      assert parts == [parts[0]] + parts[1..];
    }
  }

  /** A list made only of categories passes the filter unchanged. */
  lemma {:induction false} KeepCategoriesKeepsAll(parts: seq<string>)
    requires forall t :: t in parts ==> t in Categories
    ensures KeepCategories(parts) == parts
  {
    if parts != [] {
      assert parts[0] in parts;
      forall t | t in parts[1..] ensures t in Categories {
        assert t in parts;
      }
      KeepCategoriesKeepsAll(parts[1..]);
    }
  }

  /** Non-empty, free of commas, and with no white space at either end. */
  predicate Clean(c: string) {
    c != [] && ',' !in c && !IsSpace(c[0]) && !IsSpace(c[|c| - 1])
  }

  /** Every category is clean, so joining categories with ", " can be undone. */
  lemma CategoriesShape()
    ensures forall c :: c in Categories ==> Clean(c)
  {
    assert Clean("Map/ Location");
    assert Clean("Payment");
    assert Clean("Rider Performance");
    assert Clean("Sanitary");
    assert Clean("Booking Experience");
    assert Clean("Promo Code");
    assert Clean("Pricing");
    assert Clean("Customer Service");
    assert Clean("Management");
    assert Clean("App Performance");
    assert Clean("Generic");
  }

  /** A non-empty list of categories joined with ", " splits back into the same list. */
  lemma CategoriesReparse(parts: seq<string>)
    requires parts != [] && forall t :: t in parts ==> t in Categories
    ensures Split(Join(parts, Separator), Separator) == parts
  {
    CategoriesShape();
    SplitJoin(parts, Separator);
  }

  /** Every topic in the returned string is a category. */
  lemma TopicsAreCategories(reply: string)
    ensures forall t :: t in Split(FilterTopics(reply), Separator) ==> t in Categories
  {
    if KeepCategories(Split(Strip(reply), Separator)) == [] {
      GenericIsCategory();
    }
  }

  lemma GenericIsCategory()
    ensures "Generic" in Categories
  {
    assert Categories[10] == "Generic";
  }

  /** Clean parts joined with ", " leave nothing for `strip` to remove. */
  lemma JoinedIsStripped(parts: seq<string>)
    requires parts != [] && forall c :: c in parts ==> Clean(c)
    ensures Strip(Join(parts, Separator)) == Join(parts, Separator)
  {
    var r := Join(parts, Separator);
    JoinEnds(parts, Separator);
    var first, last := parts[0], parts[|parts| - 1];
    assert first in parts && last in parts;
    assert r[0] == first[0];
    assert r[|r| - 1] == last[|last| - 1];
    StripKeeps(r);
  }

  /** Filtering an already filtered string changes nothing. */
  lemma FilterTopicsIdempotent(reply: string)
    ensures FilterTopics(FilterTopics(reply)) == FilterTopics(reply)
  {
    var valid := KeepCategories(Split(Strip(reply), Separator));
    var parts := if valid == [] then ["Generic"] else valid;
    GenericIsCategory();
    assert forall c :: c in parts ==> c in Categories;
    CategoriesShape();
    var r := FilterTopics(reply);
    assert r == Join(parts, Separator);
    JoinedIsStripped(parts);
    SplitJoin(parts, Separator);
    KeepCategoriesKeepsAll(parts);
  }

  /** A list with no category in it filters to nothing. */
  lemma {:induction false} KeepCategoriesEmpty(parts: seq<string>)
    requires forall t :: t in parts ==> t !in Categories
    ensures KeepCategories(parts) == []
  {
    if parts != [] {
      assert parts[0] in parts;
      forall t | t in parts[1..] ensures t !in Categories {
        assert t in parts;
      }
      KeepCategoriesEmpty(parts[1..]);
    }
  }

  /** A reply naming no category, such as an apology, yields "Generic". */
  lemma NoCategoryMeansGeneric(reply: string)
    requires forall t :: t in Split(Strip(reply), Separator) ==> t !in Categories
    ensures FilterTopics(reply) == "Generic"
  {
    KeepCategoriesEmpty(Split(Strip(reply), Separator));
  }
}
