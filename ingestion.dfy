/**
 * The two write-side endpoints of backend/main.py: `/parse_expense`, which
 * runs the parser and adds a category to the draft, and `/add_expense`,
 * which normalises a raw dict into the stored document.
 */
module Ingestion {
  import opened Wrappers
  import opened PyText
  import opened DateTimes
  import opened PyRuntime
  import opened Categorizer
  import opened ResponseParser
  import opened Validators

  /** An HTTP reply: a body, or an error status. */
  datatype Response<T> = Ok(body: T) | HttpError(status: int)

  /** What `/add_expense` ends with: the document handed to the store, or a 500. */
  datatype AddOutcome = Added(doc: Row) | ServerError

  const StoredKeys: set<string> := {"title", "amount", "date", "category"}

  /**
   * `/parse_expense` on a parser outcome: an escaping exception is a 500, a
   * missing draft or one without "title" or "amount" a 422; otherwise the
   * draft gains the category of its title.
   */
  function EndpointResponse(parsed: ParseOutcome, categoryReply: Reply): Response<Row> {
    match parsed
    case Raises => HttpError(500)
    case NoDraft => HttpError(422)
    case Draft(fields) =>
      if fields == map[] || "title" !in fields || "amount" !in fields then HttpError(422)
      else Ok(fields["category" := Str(Classify(fields["title"], categoryReply))])
  }

  /** The endpoint over the parser with its failure handler corrected. */
  function ParseEndpoint(parseReply: Reply, categoryReply: Reply, lib: Library, clock: DateTime): Response<Row> {
    EndpointResponse(ParseReply(parseReply, lib, clock), categoryReply)
  }

  /** The endpoint over the parser as written. */
  function ParseEndpointAsWritten(parseReply: Reply, categoryReply: Reply, lib: Library, clock: DateTime): Response<Row> {
    EndpointResponse(ParseReplyAsWritten(parseReply, lib, clock), categoryReply)
  }

  /**
   * The endpoint as the source runs it, `parsed_data["category"]` written in
   * place, over the corrected parser.
   */
  method ParseExpense(parseReply: Reply, categoryReply: Reply, lib: Library, clock: DateTime)
    returns (response: Response<Row>)
    ensures response == ParseEndpoint(parseReply, categoryReply, lib, clock)
  {
    var parsed := ParseExpenseReply(parseReply, lib, clock);
    if parsed.Raises? {
      return HttpError(500);
    }
    if parsed.NoDraft? || parsed.fields == map[] || "title" !in parsed.fields || "amount" !in parsed.fields {
      return HttpError(422);
    }
    var parsedData := parsed.fields;
    var category := Classify(parsedData["title"], categoryReply);
    parsedData := parsedData["category" := Str(category)];
    response := Ok(parsedData);
  }

  /** `/add_expense`'s date handling, from the value under "date" (if any) to an aware datetime. */
  function IngestDate(dateValue: Option<Value>, lib: Library, clock: DateTime): (d: DateTime)
    ensures IsAware(d)
  {
    var parsed :=
      if dateValue.None? || !Truthy(dateValue.value) then NowUtc(clock)
      else match dateValue.value
        case Str(s) =>
          (var attempt :=
             if 'T' in s then lib.fromIsoFormat(ReplaceChar(s, 'Z', "+00:00"))
             else lib.fromIsoFormat(s + "T00:00:00+00:00");
           if attempt.Some? then attempt.value else NowUtc(clock))
        case Time(t) => t
        case _ => NowUtc(clock);
    AttachUtc(parsed)
  }

  /** The category `/add_expense` stores: a falsy or "Other" category is re-derived from the title. */
  function IngestCategory(data: Row, reply: Reply): Value {
    var title := if "title" in data then data["title"] else Str("");
    var category := if "category" in data then data["category"] else Str("Other");
    if !Truthy(category) || category == Str("Other") then Str(Classify(title, reply)) else category
  }

  /** The document `/add_expense` builds, or `None` where `float()` of the amount raises. */
  function IngestDoc(data: Row, reply: Reply, lib: Library, clock: DateTime): Option<Row> {
    var title := if "title" in data then data["title"] else Str("");
    match ToFloat(if "amount" in data then data["amount"] else Num(0.0), lib)
    case None => None
    case Some(amount) =>
      Some(map[
        "title" := title,
        "amount" := Num(amount),
        "date" := Time(IngestDate(if "date" in data then Some(data["date"]) else None, lib, clock)),
        "category" := IngestCategory(data, reply)])
  }

  /** The date branches of `/add_expense`, reassigning `parsed_date` as the source does. */
  method ParseIngestDate(dateValue: Option<Value>, lib: Library, clock: DateTime) returns (parsedDate: DateTime)
    ensures parsedDate == IngestDate(dateValue, lib, clock)
  {
    if dateValue.Some? && Truthy(dateValue.value) {
      var v := dateValue.value;
      if v.Str? {
        var attempt;
        if 'T' in v.s {
          attempt := lib.fromIsoFormat(ReplaceChar(v.s, 'Z', "+00:00"));
        } else {
          attempt := lib.fromIsoFormat(v.s + "T00:00:00+00:00");
        }
        parsedDate := if attempt.Some? then attempt.value else NowUtc(clock);
      } else if v.Time? {
        parsedDate := v.t;
      } else {
        parsedDate := NowUtc(clock);
      }
    } else {
      parsedDate := NowUtc(clock);
    }
    if parsedDate.utcOffset.None? {
      parsedDate := parsedDate.(utcOffset := Some(0));
    }
  }

  /**
   * `/add_expense`, with `category` and `parsed_date` reassigned across the
   * branches as in the source. `stored` is whether the insert succeeded; any
   * exception ends in a 500.
   */
  method AddExpense(data: Row, reply: Reply, lib: Library, clock: DateTime, stored: bool)
    returns (outcome: AddOutcome)
    ensures outcome == if stored && IngestDoc(data, reply, lib, clock).Some?
                       then Added(IngestDoc(data, reply, lib, clock).value) else ServerError
  {
    var title := if "title" in data then data["title"] else Str("");
    var amount := ToFloat(if "amount" in data then data["amount"] else Num(0.0), lib);
    if amount.None? {
      return ServerError;
    }
    var category := if "category" in data then data["category"] else Str("Other");
    if !Truthy(category) || category == Str("Other") {
      category := Str(Classify(title, reply));
    }
    var parsedDate := ParseIngestDate(if "date" in data then Some(data["date"]) else None, lib, clock);
    var expenseDoc := map["title" := title, "amount" := Num(amount.value), "date" := Time(parsedDate), "category" := category];
    if !stored {
      return ServerError;
    }
    outcome := Added(expenseDoc);
  }

  /**
   * A 500 exactly when the parser lets an exception escape, a 422 exactly
   * when it returns no draft: every draft it returns holds "title" and
   * "amount", so the endpoint's own key test never fails.
   */
  lemma ParseEndpointStatus(parseReply: Reply, categoryReply: Reply, lib: Library, clock: DateTime)
    ensures ParseEndpoint(parseReply, categoryReply, lib, clock) == HttpError(500)
            <==> ParseReply(parseReply, lib, clock).Raises?
    ensures ParseEndpoint(parseReply, categoryReply, lib, clock) == HttpError(422)
            <==> ParseReply(parseReply, lib, clock).NoDraft?
    ensures ParseEndpoint(parseReply, categoryReply, lib, clock).Ok?
            <==> ParseReply(parseReply, lib, clock).Draft?
  {
    var outcome := ParseReply(parseReply, lib, clock);
    if outcome.Draft? {
      ParseReplyStages(parseReply, lib, clock);
      var doc := Decoded(parseReply, lib).value;
      DraftExactlyWhen(doc, lib, clock);
      DraftFieldsFromObject(doc, lib, clock);
      assert "title" in outcome.fields && "amount" in outcome.fields;
    }
  }

  /**
   * A successful parse returns the parser's draft unchanged except for
   * "category", which is one of the fixed categories and is the classifier's
   * verdict on the draft's title.
   */
  lemma ParsedBodyExtendsDraft(parseReply: Reply, categoryReply: Reply, lib: Library, clock: DateTime)
    requires ParseEndpoint(parseReply, categoryReply, lib, clock).Ok?
    ensures var draft := ParseReply(parseReply, lib, clock);
            var body := ParseEndpoint(parseReply, categoryReply, lib, clock).body;
            && draft.Draft?
            && body.Keys == draft.fields.Keys + {"category"}
            && "title" in body && "amount" in body && "date" in body
            && (forall k :: k in draft.fields && k != "category" ==> body[k] == draft.fields[k])
            && body["category"].Str? && body["category"].s in ExpenseCategories
            && body["category"] == Str(Classify(draft.fields["title"], categoryReply))
  {
    var draft := ParseReply(parseReply, lib, clock);
    assert draft.Draft?;
    DraftHasRequiredKeys(parseReply, lib, clock);
    EndpointBodyExtends(draft, categoryReply);
  }

  /** The same on a parser outcome holding a date. */
  lemma EndpointBodyExtends(parsed: ParseOutcome, categoryReply: Reply)
    requires EndpointResponse(parsed, categoryReply).Ok?
    requires parsed.Draft? && "date" in parsed.fields
    ensures var body := EndpointResponse(parsed, categoryReply).body;
            && body.Keys == parsed.fields.Keys + {"category"}
            && "title" in body && "amount" in body && "date" in body
            && (forall k :: k in parsed.fields && k != "category" ==> body[k] == parsed.fields[k])
            && body["category"].Str? && body["category"].s in ExpenseCategories
            && body["category"] == Str(Classify(parsed.fields["title"], categoryReply))
  {
  }

  lemma CoffeeLowered()
    ensures Lower("Coffee") == "coffee"
  {
    var t := Lower("Coffee");
    assert t[0] == 'c';
    forall i | 1 <= i < 6 ensures t[i] == "coffee"[i] {
      assert "Coffee"[i] == "coffee"[i];
    }
  }

  /** The fallback on a coffee: an off-list answer gives way to the keywords. */
  lemma CoffeeFallsBackToFood()
    ensures Classify(Str("Coffee"), Answered("Beverages")) == "Food & Dining"
  {
    BeveragesStripped();
    BeveragesOffList();
    OffListAnswerIgnored(Str("Coffee"), "Beverages", "Beverages");
    CoffeeKeywords();
  }

  lemma BeveragesStripped()
    ensures Strip("Beverages") == "Beverages"
  {
    StripSurrounded("", "Beverages", "");
  }

  /** "Beverages" is not one of the categories. */
  lemma BeveragesOffList()
    ensures "Beverages" !in ExpenseCategories
  {
    forall c | c in ExpenseCategories ensures c != "Beverages" {
      assert c[0] != 'B' || |c| != 9;
    }
  }

  /** "coffee" is the first keyword of the first group. */
  lemma CoffeeKeywords()
    ensures KeywordFallback("Coffee") == "Food & Dining"
  {
    CoffeeLowered();
    assert StartsWith("coffee", "coffee");
    assert Hits(FallbackGroups[0], "coffee");
  }

  /**
   * A decoded object with "title" and a numeric "amount" passes the checks
   * with only its date normalised.
   */
  lemma ReadyObjectIsDraft(given: Row, lib: Library, clock: DateTime)
    requires "title" in given && "amount" in given && "date" in given
    requires given["amount"].Num?
    ensures CheckDecoded(Dict(given), lib, clock) == Draft(NormalizeDraftDate(given, lib, clock))
  {
    assert RequiredKeysIn(Dict(given)) == Some(true);
    assert CoerceAmount(given, lib) == Some(given);
  }

  /**
   * A fenced JSON object holding "title", "date" and a numeric "amount"
   * comes back from the parser with only its date normalised.
   */
  lemma FencedObjectIsDraft(body: string, given: Row, lib: Library, clock: DateTime)
    requires |body| >= 2 && body[0] == '{' && body[|body| - 1] == '}'
    requires lib.jsonLoads(body) == Some(Dict(given))
    requires "title" in given && "amount" in given && "date" in given
    requires given["amount"].Num?
    ensures ParseReply(Answered(JsonFence + "\n" + body + "\n" + Fence), lib, clock)
            == Draft(NormalizeDraftDate(given, lib, clock))
  {
    var text := JsonFence + "\n" + body + "\n" + Fence;
    assert CleanedText(text) == body by {
      assert AllSpace("\n");
      FencedObjectUnwraps(JsonFence, "\n", body, "\n");
    }
    ReadyObjectIsDraft(given, lib, clock);
    ParseReplyStages(Answered(text), lib, clock);
  }

  /**
   * `/parse_expense` on such a reply for a coffee, when the model answers the
   * category prompt with something off the list: the keywords decide, and
   * the body is the decoded object with "Food & Dining" added and its date
   * normalised, so a string date such as "2024-01-01T08:00:00" comes back as
   * the ISO form of its parse.
   */
  lemma CoffeeIsFoodAndDining(body: string, given: Row, lib: Library, clock: DateTime)
    requires |body| >= 2 && body[0] == '{' && body[|body| - 1] == '}'
    requires lib.jsonLoads(body) == Some(Dict(given))
    requires "title" in given && "amount" in given && "date" in given
    requires given["amount"].Num? && given["title"] == Str("Coffee")
    ensures ParseEndpoint(Answered(JsonFence + "\n" + body + "\n" + Fence), Answered("Beverages"), lib, clock)
            == Ok(NormalizeDraftDate(given, lib, clock)["category" := Str("Food & Dining")])
  {
    FencedObjectIsDraft(body, given, lib, clock);
    CoffeeFallsBackToFood();
  }

  /**
   * The stored document: exactly the four keys, a missing title stored as
   * the empty string, the amount as `float()` reads it, and a date that is
   * always timezone-aware. The insert is attempted exactly when `float()`
   * succeeds.
   */
  lemma IngestDocShape(data: Row, reply: Reply, lib: Library, clock: DateTime)
    ensures IngestDoc(data, reply, lib, clock).Some?
            <==> ToFloat(if "amount" in data then data["amount"] else Num(0.0), lib).Some?
    ensures IngestDoc(data, reply, lib, clock).Some? ==>
              var doc := IngestDoc(data, reply, lib, clock).value;
              && doc.Keys == StoredKeys
              && doc["title"] == (if "title" in data then data["title"] else Str(""))
              && doc["amount"] == Num(ToFloat(if "amount" in data then data["amount"] else Num(0.0), lib).value)
              && doc["date"].Time? && IsAware(doc["date"].t)
  {
    assert |"title"| == 5 && |"amount"| == 6 && |"date"| == 4 && |"category"| == 8;
  }

  /**
   * The category policy: a truthy category other than "Other" is stored as
   * given, even one outside the fixed list or not a string; a missing, falsy
   * or "Other" category is replaced by the classifier's verdict, which is
   * always on the list.
   */
  lemma IngestCategoryPolicy(data: Row, reply: Reply)
    ensures "category" in data && Truthy(data["category"]) && data["category"] != Str("Other")
            ==> IngestCategory(data, reply) == data["category"]
    ensures !("category" in data && Truthy(data["category"]) && data["category"] != Str("Other"))
            ==> IngestCategory(data, reply) == Str(Classify(if "title" in data then data["title"] else Str(""), reply))
    ensures !("category" in data && Truthy(data["category"]) && data["category"] != Str("Other"))
            ==> IngestCategory(data, reply).Str? && IngestCategory(data, reply).s in ExpenseCategories
  {
  }

  /**
   * `/add_expense` never validates the amount: a zero or negative number is
   * stored as given, though the `Expense` model's validator rejects it.
   */
  lemma NonPositiveAmountIsStored(data: Row, reply: Reply, lib: Library, clock: DateTime, amount: real)
    requires "amount" in data && data["amount"] == Num(amount) && amount <= 0.0
    ensures IngestDoc(data, reply, lib, clock).Some?
    ensures IngestDoc(data, reply, lib, clock).value["amount"] == Num(amount)
    ensures ValidateAmount(amount).None?
  {
  }

  /**
   * The date branches: a string with a 'T' is parsed with every 'Z' read as
   * "+00:00", a non-empty string without one is parsed as midnight UTC of
   * that date, and a datetime is kept; a naive result is read as UTC, and
   * anything else, an unparsable string included, becomes the aware
   * current time.
   */
  lemma IngestDateCases(v: Value, lib: Library, clock: DateTime)
    ensures !Truthy(v) ==> IngestDate(Some(v), lib, clock) == NowUtc(clock)
    ensures IngestDate(None, lib, clock) == NowUtc(clock)
    ensures v.Str? && 'T' in v.s ==>
              var parsed := lib.fromIsoFormat(ReplaceChar(v.s, 'Z', "+00:00"));
              IngestDate(Some(v), lib, clock) == if parsed.Some? then AttachUtc(parsed.value) else NowUtc(clock)
    ensures v.Str? && v.s != [] && 'T' !in v.s ==>
              var parsed := lib.fromIsoFormat(v.s + "T00:00:00+00:00");
              IngestDate(Some(v), lib, clock) == if parsed.Some? then AttachUtc(parsed.value) else NowUtc(clock)
    ensures v.Time? && IsAware(v.t) ==> IngestDate(Some(v), lib, clock) == v.t
    ensures v.Time? && !IsAware(v.t) ==> IngestDate(Some(v), lib, clock) == v.t.(utcOffset := Some(0))
    ensures Truthy(v) && !v.Str? && !v.Time? ==> IngestDate(Some(v), lib, clock) == NowUtc(clock)
  {
  }

  /**
   * Where no date can be read, `/add_expense` uses the aware current UTC
   * time while the `Expense` model's validator uses the naive one: the same
   * wall-clock reading, but only one of them carries a timezone.
   */
  lemma FallbackDatesDisagreeOnAwareness(lib: Library, clock: DateTime)
    ensures IsAware(IngestDate(None, lib, clock))
    ensures ParseDate(Null, lib, clock).Time? && !IsAware(ParseDate(Null, lib, clock).t)
    ensures IngestDate(None, lib, clock).(utcOffset := None) == ParseDate(Null, lib, clock).t
  {
  }

  /**
   * A body `/parse_expense` returned, given to `/add_expense`: title and a
   * numeric amount are stored as parsed, a category other than "Other" is
   * kept, and, whenever the library's ISO formatter and parser invert each
   * other on it, the date is the parsed one, read as UTC if it is naive (as
   * the parser's dates usually are, having lost their 'Z').
   */
  lemma ParseThenAdd(body: Row, addReply: Reply, lib: Library, clock: DateTime, d: DateTime)
    requires "title" in body && "amount" in body && "date" in body && "category" in body
    requires body["amount"].Num?
    ensures IngestDoc(body, addReply, lib, clock).Some?
    ensures var doc := IngestDoc(body, addReply, lib, clock).value;
            && doc["title"] == body["title"]
            && doc["amount"] == body["amount"]
            && (body["category"] != Str("Other") && Truthy(body["category"]) ==> doc["category"] == body["category"])
            && (body["date"] == Str(lib.isoFormat(d)) && 'T' in lib.isoFormat(d)
                && lib.fromIsoFormat(ReplaceChar(lib.isoFormat(d), 'Z', "+00:00")) == Some(d)
                ==> doc["date"] == Time(AttachUtc(d))
                    && (IsAware(d) ==> doc["date"] == Time(d))
                    && (!IsAware(d) ==> doc["date"] == Time(d.(utcOffset := Some(0)))))
  {
  }

  /**
   * The endpoint as written and as corrected differ only on a reply whose
   * `.text` raises: 500 as written, 422 once the handler returns `None`.
   */
  lemma ParseEndpointAsWrittenDiffers(parseReply: Reply, categoryReply: Reply, lib: Library, clock: DateTime)
    ensures ParseEndpointAsWritten(TextRaised, categoryReply, lib, clock) == HttpError(500)
    ensures ParseEndpoint(TextRaised, categoryReply, lib, clock) == HttpError(422)
    ensures parseReply != TextRaised ==>
              ParseEndpointAsWritten(parseReply, categoryReply, lib, clock) == ParseEndpoint(parseReply, categoryReply, lib, clock)
  {
    UnreadableReplyEscapesHandler(lib, clock, parseReply);
  }
}
