/**
 * `categorize_expense_with_gemini` (backend/gemini_utils.py): the model's
 * answer is accepted only when, stripped, it is one of the fifteen fixed
 * categories; otherwise ordered keyword groups are tested as substrings of
 * the lower-cased title and the first group that hits decides; any exception
 * yields "Other".
 */
module Categorizer {
  import opened PyText
  import opened PyRuntime

  const ExpenseCategories: seq<string> := [
    "Food & Dining", "Transportation", "Shopping", "Entertainment",
    "Bills & Utilities", "Healthcare", "Education", "Travel",
    "Groceries", "Fuel", "Personal Care", "Home & Garden",
    "Gifts & Donations", "Subscriptions", "Other"
  ]

  /** One branch of the fallback chain: any keyword hit selects `category`. */
  datatype KeywordGroup = KeywordGroup(keywords: seq<string>, category: string)

  /** The fallback branches, in the order the chain tests them. */
  const FallbackGroups: seq<KeywordGroup> := [
    KeywordGroup(["food", "restaurant", "cafe", "coffee", "lunch", "dinner", "breakfast"], "Food & Dining"),
    KeywordGroup(["uber", "taxi", "bus", "train", "metro", "transport"], "Transportation"),
    KeywordGroup(["grocery", "supermarket", "vegetables", "fruits"], "Groceries"),
    KeywordGroup(["petrol", "diesel", "fuel", "gas"], "Fuel"),
    KeywordGroup(["movie", "cinema", "game", "entertainment"], "Entertainment"),
    KeywordGroup(["electricity", "water", "gas", "internet", "phone", "bill"], "Bills & Utilities"),
    KeywordGroup(["medicine", "doctor", "hospital", "health"], "Healthcare"),
    KeywordGroup(["book", "course", "education", "school", "college"], "Education"),
    KeywordGroup(["shop", "shopping", "clothes", "dress"], "Shopping"),
    KeywordGroup(["netflix", "spotify", "subscription", "prime"], "Subscriptions")
  ]

  /** `any(word in title_lower for word in keywords)`. */
  predicate AnyKeyword(keywords: seq<string>, lowered: string)
    decreases |keywords|
  {
    keywords != [] && (Contains(lowered, keywords[0]) || AnyKeyword(keywords[1..], lowered))
  }

  predicate Hits(group: KeywordGroup, lowered: string) {
    AnyKeyword(group.keywords, lowered)
  }

  /** The if/elif chain over `groups`: the category of the first group that hits, else "Other". */
  function FirstHit(groups: seq<KeywordGroup>, lowered: string): string
    decreases |groups|
  {
    if groups == [] then "Other"
    else if Hits(groups[0], lowered) then groups[0].category
    else FirstHit(groups[1..], lowered)
  }

  /** The keyword fallback for a string title. */
  function KeywordFallback(title: string): string {
    FirstHit(FallbackGroups, Lower(title))
  }

  /**
   * The whole classifier. `title` is any value (the parse endpoint passes the
   * decoded JSON title as it is); `.lower()` on a non-string raises
   * `AttributeError`, which the catch-all turns into "Other".
   */
  function Classify(title: Value, reply: Reply): (category: string)
    ensures category in ExpenseCategories
  {
    match reply
    case Answered(text) =>
      var answer := Strip(text);
      if answer in ExpenseCategories then answer
      else if title.Str? then FallbackInCategories(Lower(title.s)); KeywordFallback(title.s)
      else "Other"
    case _ => "Other"
  }

  /**
   * The chain returns the category of the first group that hits, and "Other"
   * when no group hits.
   */
  lemma {:induction false} FirstHitCases(groups: seq<KeywordGroup>, lowered: string)
    ensures (forall j :: 0 <= j < |groups| ==> !Hits(groups[j], lowered)) ==> FirstHit(groups, lowered) == "Other"
    ensures forall k :: 0 <= k < |groups| && Hits(groups[k], lowered)
                        && (forall j :: 0 <= j < k ==> !Hits(groups[j], lowered))
                        ==> FirstHit(groups, lowered) == groups[k].category
    decreases |groups|
  {
    if groups != [] {
      FirstHitCases(groups[1..], lowered);
      forall k | 0 < k < |groups| && Hits(groups[k], lowered) && (forall j :: 0 <= j < k ==> !Hits(groups[j], lowered))
        ensures FirstHit(groups, lowered) == groups[k].category
      {
        assert !Hits(groups[0], lowered);
        assert groups[1..][k - 1] == groups[k];
        forall j | 0 <= j < k - 1 ensures !Hits(groups[1..][j], lowered) {
          assert groups[1..][j] == groups[j + 1];
        }
      }
      if forall j :: 0 <= j < |groups| ==> !Hits(groups[j], lowered) {
        assert !Hits(groups[0], lowered);
        forall j | 0 <= j < |groups| - 1 ensures !Hits(groups[1..][j], lowered) {
          assert groups[1..][j] == groups[j + 1];
        }
      }
    }
  }

  /** Every fallback outcome is one of the fixed categories. */
  lemma FallbackInCategories(lowered: string)
    ensures FirstHit(FallbackGroups, lowered) in ExpenseCategories
  {
    FirstHitCases(FallbackGroups, lowered);
    GroupCategoriesDistinct();
    if exists k :: 0 <= k < |FallbackGroups| && Hits(FallbackGroups[k], lowered) {
      var k := FirstHitIndex(lowered, 0);
      assert FallbackGroups[k].category in ExpenseCategories;
    }
  }

  /** The index of the first fallback group at or after `from` that hits `lowered`. */
  function FirstHitIndex(lowered: string, from: nat): (k: nat)
    requires from <= |FallbackGroups|
    requires exists k :: from <= k < |FallbackGroups| && Hits(FallbackGroups[k], lowered)
    ensures from <= k < |FallbackGroups| && Hits(FallbackGroups[k], lowered)
    ensures forall j :: from <= j < k ==> !Hits(FallbackGroups[j], lowered)
    decreases |FallbackGroups| - from
  {
    if Hits(FallbackGroups[from], lowered) then from else FirstHitIndex(lowered, from + 1)
  }

  /**
   * Priority: the fallback yields group `k`'s category exactly when group `k`
   * hits and no earlier group does (the ten categories are distinct).
   */
  lemma FallbackPriority(title: string, k: nat)
    requires k < |FallbackGroups|
    ensures KeywordFallback(title) == FallbackGroups[k].category
            <==> Hits(FallbackGroups[k], Lower(title))
                 && forall j :: 0 <= j < k ==> !Hits(FallbackGroups[j], Lower(title))
  {
    var lowered := Lower(title);
    FirstHitCases(FallbackGroups, lowered);
    GroupCategoriesDistinct();
    if exists i :: 0 <= i < |FallbackGroups| && Hits(FallbackGroups[i], lowered) {
      var i := FirstHitIndex(lowered, 0);
      assert KeywordFallback(title) == FallbackGroups[i].category;
    }
  }

  lemma GroupCategoriesDistinct()
    ensures forall i, j :: 0 <= i < j < |FallbackGroups| ==> FallbackGroups[i].category != FallbackGroups[j].category
    ensures forall i :: 0 <= i < |FallbackGroups| ==> FallbackGroups[i].category != "Other"
    ensures forall i :: 0 <= i < |FallbackGroups| ==> FallbackGroups[i].category in ExpenseCategories
  {
  }

  /** A title with no keyword of any group falls back to "Other", and only such a title does. */
  lemma FallbackOtherIffNoHit(title: string)
    ensures KeywordFallback(title) == "Other"
            <==> forall j :: 0 <= j < |FallbackGroups| ==> !Hits(FallbackGroups[j], Lower(title))
  {
    var lowered := Lower(title);
    FirstHitCases(FallbackGroups, lowered);
    GroupCategoriesDistinct();
    if exists i :: 0 <= i < |FallbackGroups| && Hits(FallbackGroups[i], lowered) {
      var i := FirstHitIndex(lowered, 0);
      assert KeywordFallback(title) == FallbackGroups[i].category;
    }
  }

  /** "gas" is a Fuel keyword tested before the utilities group, so it never yields "Bills & Utilities". */
  lemma GasIsNeverUtilities(title: string)
    requires Contains(Lower(title), "gas")
    ensures KeywordFallback(title) != "Bills & Utilities"
    ensures (forall j :: 0 <= j < 3 ==> !Hits(FallbackGroups[j], Lower(title))) ==> KeywordFallback(title) == "Fuel"
  {
    assert Hits(FallbackGroups[3], Lower(title));
    FallbackPriority(title, 3);
    FallbackPriority(title, 5);
  }

  /** A stripped answer that is a listed category is returned as it is, whatever the title. */
  lemma ListedAnswerIsKept(title: Value, text: string)
    requires Strip(text) in ExpenseCategories
    ensures Classify(title, Answered(text)) == Strip(text)
  {
  }

  /** An off-list answer is ignored: two such answers give the same category, decided by the title alone. */
  lemma OffListAnswerIgnored(title: Value, text1: string, text2: string)
    requires Strip(text1) !in ExpenseCategories && Strip(text2) !in ExpenseCategories
    ensures Classify(title, Answered(text1)) == Classify(title, Answered(text2))
    ensures title.Str? ==> Classify(title, Answered(text1)) == KeywordFallback(title.s)
    ensures !title.Str? ==> Classify(title, Answered(text1)) == "Other"
  {
  }

  /** A failed model call yields "Other" without consulting the keywords. */
  lemma FailedCallIsOther(title: Value, reply: Reply)
    requires !reply.Answered?
    ensures Classify(title, reply) == "Other"
  {
  }
}
