/**
 * `parse_expense_with_gemini` (backend/gemini_utils.py): the model's reply is
 * untrusted text. It is stripped, unfenced, cut down to the greedy
 * `{...}` span, decoded, checked for the three required keys, and its
 * amount and date are normalised in place; failures return `None`.
 */
module ResponseParser {
  import opened Wrappers
  import opened PyText
  import opened DateTimes
  import opened PyRuntime

  const JsonFence := "```json"
  const Fence := "```"

  /** What the parser hands back: the draft dict, `None`, or an exception that escapes it. */
  datatype ParseOutcome = Draft(fields: Row) | NoDraft | Raises

  /** The fence step: drop an opening fence, then every trailing backtick, then whitespace. */
  function Unfence(t: string): string {
    if StartsWith(t, JsonFence) then Strip(RStripBy(t[|JsonFence|..], IsBacktick))
    else if StartsWith(t, Fence) then Strip(RStripBy(t[|Fence|..], IsBacktick))
    else t
  }

  /** `i`, `j` are a `{` and a later `}` of `t`: a place where `\{.*\}` can match. */
  predicate BracePair(t: string, i: int, j: int) {
    0 <= i < j < |t| && t[i] == '{' && t[j] == '}'
  }

  /** `re.search(r'\{.*\}', t, re.DOTALL)`, replacing `t` by the match when there is one. */
  function BraceSpan(t: string): string {
    match (IndexOf(t, '{'), LastIndexOf(t, '}'))
    case (Some(i), Some(j)) => if i < j then t[i..j + 1] else t
    case _ => t
  }

  /** The whole cleaning pipeline, as a function of the raw reply text. */
  function CleanedText(text: string): string {
    BraceSpan(Unfence(Strip(text)))
  }

  /** Reassigns `cleaned_response` step by step, as the source does. */
  method CleanResponse(text: string) returns (cleaned: string)
    ensures cleaned == CleanedText(text)
  {
    cleaned := Strip(text);
    ghost var stripped := cleaned;
    if StartsWith(cleaned, JsonFence) {
      cleaned := Strip(RStripBy(cleaned[|JsonFence|..], IsBacktick));
    } else if StartsWith(cleaned, Fence) {
      cleaned := Strip(RStripBy(cleaned[|Fence|..], IsBacktick));
    }
    assert cleaned == Unfence(stripped);
    cleaned := BraceSpan(cleaned);
  }

  /**
   * The span step is the leftmost, longest match of `\{.*\}`: when a `{` has
   * a `}` after it, the result runs from the first `{` to the last `}`,
   * which no other brace pair reaches beyond; otherwise the text is kept.
   */
  lemma BraceSpanIsGreedyMatch(t: string)
    ensures (exists i, j :: BracePair(t, i, j)) ==>
              exists a, b :: BracePair(t, a, b) && BraceSpan(t) == t[a..b + 1]
                             && forall i, j :: BracePair(t, i, j) ==> a <= i && j <= b
    ensures (forall i, j :: !BracePair(t, i, j)) ==> BraceSpan(t) == t
  {
    var open, close := IndexOf(t, '{'), LastIndexOf(t, '}');
    if exists i, j :: BracePair(t, i, j) {
      var i, j :| BracePair(t, i, j);
      assert t[i] in t && t[j] in t;
      var a, b := open.value, close.value;
      forall i', j' | BracePair(t, i', j') ensures a <= i' && j' <= b {
        assert t[..a] == t[..a] && t[b + 1..] == t[b + 1..];
      }
      assert BracePair(t, a, b);
    } else if open.Some? && close.Some? && open.value < close.value {
      assert BracePair(t, open.value, close.value);
    }
  }

  /** Python's `key in parsed_data` for each required key; `None` where it raises `TypeError`. */
  function RequiredKeysIn(doc: Value): Option<bool> {
    match (KeyIn("title", doc), KeyIn("amount", doc), KeyIn("date", doc))
    case (Some(t), Some(a), Some(d)) => Some(t && a && d)
    case _ => None
  }

  /** `parsed_data["amount"] = float(...)` when the amount is a string; `None` where `float()` raises. */
  function CoerceAmount(fields: Row, lib: Library): Option<Row>
    requires "amount" in fields
  {
    if fields["amount"].Str? then
      match lib.parseFloat(fields["amount"].s)
      case Some(x) => Some(fields["amount" := Num(x)])
      case None => None
    else Some(fields)
  }

  /**
   * A string date loses every 'Z', is parsed and re-serialised; if it does
   * not parse it becomes the reference time. Other values are kept.
   */
  function NormalizeDraftDate(fields: Row, lib: Library, clock: DateTime): (r: Row)
    requires "date" in fields
    ensures r.Keys == fields.Keys
    ensures forall k :: k in fields && k != "date" ==> r[k] == fields[k]
    ensures !fields["date"].Str? ==> r == fields
    ensures fields["date"].Str? ==>
              var parsed := lib.fromIsoFormat(ReplaceChar(fields["date"].s, 'Z', ""));
              r["date"] == Str(lib.isoFormat(if parsed.Some? then parsed.value else NowUtc(clock)))
  {
    if fields["date"].Str? then
      match lib.fromIsoFormat(ReplaceChar(fields["date"].s, 'Z', ""))
      case Some(d) => fields["date" := Str(lib.isoFormat(d))]
      case None => fields["date" := Str(lib.isoFormat(NowUtc(clock)))]
    else fields
  }

  /** The checks after decoding. */
  function CheckDecoded(doc: Value, lib: Library, clock: DateTime): ParseOutcome {
    match RequiredKeysIn(doc)
    case None => Raises
    case Some(present) =>
      if !present then NoDraft
      else if !doc.Dict? then Raises
      else
        match CoerceAmount(doc.entries, lib)
        case None => NoDraft
        case Some(fields) => Draft(NormalizeDraftDate(fields, lib, clock))
  }

  /** The parser on a reply that produced text. */
  function ParseAnswer(text: string, lib: Library, clock: DateTime): ParseOutcome {
    var cleaned := CleanedText(text);
    if cleaned == [] then NoDraft
    else match lib.jsonLoads(cleaned)
      case None => NoDraft
      case Some(doc) => CheckDecoded(doc, lib, clock)
  }

  /**
   * The parser, with the failure handler doing what it evidently means to:
   * a reply whose text cannot be read returns `None` like any other
   * `ValueError`.
   */
  function ParseReply(reply: Reply, lib: Library, clock: DateTime): ParseOutcome {
    match reply
    case Answered(text) => ParseAnswer(text, lib, clock)
    case CallRaised(handled) => if handled then NoDraft else Raises
    case TextRaised => NoDraft
  }

  /**
   * The parser as written: when `.text` raised, the handler reads
   * `response.text` again to log it, which raises once more.
   */
  function ParseReplyAsWritten(reply: Reply, lib: Library, clock: DateTime): ParseOutcome {
    match reply
    case TextRaised => Raises
    case _ => ParseReply(reply, lib, clock)
  }

  /** Runs the pipeline, updating the decoded dict in place for the amount and the date. */
  method ParseExpenseReply(reply: Reply, lib: Library, clock: DateTime) returns (outcome: ParseOutcome)
    ensures outcome == ParseReply(reply, lib, clock)
  {
    if !reply.Answered? {
      outcome := if reply.CallRaised? && !reply.handled then Raises else NoDraft;
      return;
    }
    var cleaned := CleanResponse(reply.text);
    if cleaned == [] {
      return NoDraft;
    }
    var decoded := lib.jsonLoads(cleaned);
    if decoded.None? {
      return NoDraft;
    }
    ParseReplyStages(reply, lib, clock);
    outcome := CheckParsed(decoded.value, lib, clock);
  }

  /** The checks on the decoded value, with the dict updated in place for the amount and the date. */
  method CheckParsed(parsedData: Value, lib: Library, clock: DateTime) returns (outcome: ParseOutcome)
    ensures outcome == CheckDecoded(parsedData, lib, clock)
  {
    var present := RequiredKeysIn(parsedData);
    if present.None? {
      return Raises;
    } else if !present.value {
      return NoDraft;
    } else if !parsedData.Dict? {
      return Raises;
    }
    var fields := parsedData.entries;
    if fields["amount"].Str? {
      var amount := lib.parseFloat(fields["amount"].s);
      if amount.None? {
        return NoDraft;
      }
      fields := fields["amount" := Num(amount.value)];
    }
    assert CoerceAmount(parsedData.entries, lib) == Some(fields);
    if fields["date"].Str? {
      var parsedDate := lib.fromIsoFormat(ReplaceChar(fields["date"].s, 'Z', ""));
      if parsedDate.Some? {
        fields := fields["date" := Str(lib.isoFormat(parsedDate.value))];
      } else {
        fields := fields["date" := Str(lib.isoFormat(NowUtc(clock)))];
      }
    }
    outcome := Draft(fields);
  }

  /** The decoded reply, when the cleaned text is non-empty and decodes. */
  function Decoded(reply: Reply, lib: Library): Option<Value> {
    if reply.Answered? && CleanedText(reply.text) != [] then lib.jsonLoads(CleanedText(reply.text))
    else None
  }

  predicate AllSpace(s: string) {
    forall i :: 0 <= i < |s| ==> IsSpace(s[i])
  }

  /** A text that starts with `{` and ends with `}` is its own brace span. */
  lemma BraceSpanOfObject(body: string)
    requires |body| >= 2 && body[0] == '{' && body[|body| - 1] == '}'
    ensures BraceSpan(body) == body
  {
    assert IndexOf(body, '{') == Some(0);
    assert body[|body| - 1..] == ['}'];
  }

  /** A fenced reply starts and ends with a backtick, so the first `strip()` keeps it whole. */
  lemma StripKeepsFencedReply(fence: string, inner: string)
    requires fence == JsonFence || fence == Fence
    ensures Strip(fence + inner + Fence) == fence + inner + Fence
  {
    var raw := fence + inner + Fence;
    StripSurrounded([], raw, []);
    assert [] + raw + [] == raw;
  }

  /** The fence step removes the opening fence and the closing backticks, then strips. */
  lemma UnfenceStripsFence(fence: string, inner: string)
    requires fence == JsonFence || fence == Fence
    requires inner != [] && !IsBacktick(inner[|inner| - 1])
    requires fence == Fence ==> !StartsWith(inner, "json")
    ensures Unfence(fence + inner + Fence) == Strip(inner)
  {
    var raw := fence + inner + Fence;
    RStripBySuffix(inner, Fence, IsBacktick);
    if fence == JsonFence {
      assert raw[..|JsonFence|] == JsonFence;
      assert raw[|JsonFence|..] == inner + Fence;
    } else {
      assert raw[..|Fence|] == Fence;
      assert raw[|Fence|..] == inner + Fence;
      UntaggedFenceIsNotJsonFence(inner);
    }
  }

  /** A bare fence followed by text that does not start with "json" is not the tagged fence. */
  lemma UntaggedFenceIsNotJsonFence(inner: string)
    requires inner != [] && !StartsWith(inner, "json")
    ensures !StartsWith(Fence + inner + Fence, JsonFence)
  {
    var raw := Fence + inner + Fence;
    if |inner| >= 4 {
      assert raw[..7] == Fence + inner[..4];
      assert (Fence + inner[..4])[3..] == inner[..4];
    } else {
      var k := 3 + |inner|;
      assert raw[k] == '`';
      assert JsonFence[k] != '`';
      assert raw[..7][k] == raw[k];
    }
  }

  /**
   * A JSON object wrapped in a code fence, with or without the `json` tag
   * and with whitespace around it, is unwrapped to exactly the object text.
   */
  lemma FencedObjectUnwraps(fence: string, pad1: string, body: string, pad2: string)
    requires fence == JsonFence || fence == Fence
    requires AllSpace(pad1) && AllSpace(pad2)
    requires |body| >= 2 && body[0] == '{' && body[|body| - 1] == '}'
    ensures CleanedText(fence + pad1 + body + pad2 + Fence) == body
  {
    var inner := pad1 + body + pad2;
    assert fence + pad1 + body + pad2 + Fence == fence + inner + Fence;
    PaddedObject(pad1, body, pad2);
    StripKeepsFencedReply(fence, inner);
    UnfenceStripsFence(fence, inner);
    BraceSpanOfObject(body);
  }

  /** An object with whitespace around it: neither end is a backtick, it has no "json" tag, and it strips to the object. */
  lemma PaddedObject(pad1: string, body: string, pad2: string)
    requires AllSpace(pad1) && AllSpace(pad2)
    requires |body| >= 2 && body[0] == '{' && body[|body| - 1] == '}'
    ensures var inner := pad1 + body + pad2;
            && inner != [] && !IsBacktick(inner[|inner| - 1]) && !StartsWith(inner, "json")
            && Strip(inner) == body
  {
    var inner := pad1 + body + pad2;
    assert !IsBacktick(inner[|inner| - 1]) by {
      if pad2 == [] { assert inner[|inner| - 1] == body[|body| - 1]; }
      else { assert inner[|inner| - 1] == pad2[|pad2| - 1]; }
    }
    assert !StartsWith(inner, "json") by {
      if pad1 == [] { assert inner[0] == body[0]; } else { assert inner[0] == pad1[0]; }
    }
    StripSurrounded(pad1, body, pad2);
  }

  /**
   * How a reply reaches the checks: a failed call is `None` or escapes by
   * the exception's type, an empty cleaned text or a decode error is `None`,
   * and otherwise the decoded value decides.
   */
  lemma ParseReplyStages(reply: Reply, lib: Library, clock: DateTime)
    ensures reply.CallRaised? ==> ParseReply(reply, lib, clock) == (if reply.handled then NoDraft else Raises)
    ensures reply.Answered? && CleanedText(reply.text) == [] ==> ParseReply(reply, lib, clock) == NoDraft
    ensures reply.Answered? ==>
              ParseReply(reply, lib, clock)
              == if Decoded(reply, lib).None? then NoDraft else CheckDecoded(Decoded(reply, lib).value, lib, clock)
  {
  }

  /**
   * After decoding, a draft comes back exactly when the value is an object
   * holding "title", "amount" and "date" whose amount, if a string, is a
   * number: the date never decides.
   */
  lemma DraftExactlyWhen(doc: Value, lib: Library, clock: DateTime)
    ensures CheckDecoded(doc, lib, clock).Draft? <==>
      && doc.Dict?
      && "title" in doc.entries && "amount" in doc.entries && "date" in doc.entries
      && (doc.entries["amount"].Str? ==> lib.parseFloat(doc.entries["amount"].s).Some?)
  {
  }

  /** A draft always holds the three keys the prompt asks for. */
  lemma DraftHasRequiredKeys(reply: Reply, lib: Library, clock: DateTime)
    requires ParseReply(reply, lib, clock).Draft?
    ensures var fields := ParseReply(reply, lib, clock).fields;
            "title" in fields && "amount" in fields && "date" in fields
  {
    ParseReplyStages(reply, lib, clock);
    var doc := Decoded(reply, lib).value;
    DraftExactlyWhen(doc, lib, clock);
    DraftFieldsFromObject(doc, lib, clock);
  }

  /**
   * After decoding, the exception escapes exactly when the value is not an
   * object: a number, boolean or null fails `key in`, and a list or string
   * that passes it fails `parsed_data["amount"]`.
   */
  lemma RaisesExactlyWhen(doc: Value, lib: Library, clock: DateTime)
    ensures CheckDecoded(doc, lib, clock).Raises? <==>
      || !(doc.Dict? || doc.List? || doc.Str?)
      || (!doc.Dict? && RequiredKeysIn(doc) == Some(true))
  {
  }

  /**
   * A draft keeps the decoded object's keys and values, except that a string
   * amount becomes the number `float()` reads from it and a string date
   * becomes the ISO form of its parse (every 'Z' removed first) or, when it
   * does not parse, of the reference time.
   */
  lemma DraftFieldsFromObject(doc: Value, lib: Library, clock: DateTime)
    requires CheckDecoded(doc, lib, clock).Draft?
    ensures doc.Dict?
    ensures var fields := CheckDecoded(doc, lib, clock).fields;
            var given := doc.entries;
            && fields.Keys == given.Keys
            && (forall k :: k in fields && k != "amount" && k != "date" ==> fields[k] == given[k])
            && !fields["amount"].Str?
            && (given["amount"].Str? ==> fields["amount"] == Num(lib.parseFloat(given["amount"].s).value))
            && (!given["amount"].Str? ==> fields["amount"] == given["amount"])
            && (!given["date"].Str? ==> fields["date"] == given["date"])
            && (given["date"].Str? ==>
                  var parsed := lib.fromIsoFormat(ReplaceChar(given["date"].s, 'Z', ""));
                  fields["date"] == Str(lib.isoFormat(if parsed.Some? then parsed.value else NowUtc(clock))))
  {
  }

  /**
   * Finding: as written, a reply whose `.text` raises lets a second
   * `ValueError` escape the handler, where the evident intent is `None`;
   * on every other reply the two agree.
   */
  lemma UnreadableReplyEscapesHandler(lib: Library, clock: DateTime, reply: Reply)
    ensures ParseReplyAsWritten(TextRaised, lib, clock) == Raises
    ensures ParseReply(TextRaised, lib, clock) == NoDraft
    ensures reply != TextRaised ==> ParseReplyAsWritten(reply, lib, clock) == ParseReply(reply, lib, clock)
  {
  }
}
