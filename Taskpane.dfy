/**
 * The task pane's string logic: HTML escaping of logged messages, the CSS
 * class of a log entry, the guards and query templates of the two send
 * actions, and the fallback text shown for a reply without an answer.
 */
module Taskpane {
  import opened Wrappers
  import opened Strings
  import Server

  // ----- escapeHtml -----

  /** The characters `escapeHtml` replaces. */
  predicate IsSpecial(c: char) {
    c == '&' || c == '<' || c == '>' || c == '"' || c == '\''
  }

  /** The characters that must not appear raw in escaped output. */
  predicate IsMarkup(c: char) {
    c == '<' || c == '>' || c == '"' || c == '\''
  }

  /** The replacement of one character by the escape map, or the character itself. */
  function EscapeChar(c: char): (s: string)
    ensures |s| >= 1 && (|s| == 1 <==> !IsSpecial(c))
    ensures forall i | 0 <= i < |s| :: !IsMarkup(s[i])
    ensures !IsSpecial(c) ==> s == [c]
  {
    match c
    case '&' => "&amp;"
    case '<' => "&lt;"
    case '>' => "&gt;"
    case '"' => "&quot;"
    case '\'' => "&#39;"
    case _ => [c]
  }

  /** `escapeHtml(text)`: every character replaced through the escape map, left to right. */
  function EscapeHtml(text: string): (r: string)
    ensures forall i | 0 <= i < |r| :: !IsMarkup(r[i])
    decreases |text|
  {
    if text == [] then []
    else
      var head, tail := EscapeChar(text[0]), EscapeHtml(text[1..]);
      assert forall i | |head| <= i < |head + tail| :: (head + tail)[i] == tail[i - |head|];
      head + tail
  }

  /** Escaping works character by character, so it distributes over concatenation. */
  lemma {:induction false} EscapeHtmlAppend(a: string, b: string)
    ensures EscapeHtml(a + b) == EscapeHtml(a) + EscapeHtml(b)
    decreases |a|
  {
    if a == [] {
      assert a + b == b;
    } else {
      assert (a + b)[0] == a[0];
      assert (a + b)[1..] == a[1..] + b;
      EscapeHtmlAppend(a[1..], b);
    }
  }

  /** A text with none of the five special characters is returned unchanged. */
  lemma {:induction false} EscapePlain(text: string)
    requires forall i | 0 <= i < |text| :: !IsSpecial(text[i])
    ensures EscapeHtml(text) == text
    decreases |text|
  {
    if text != [] {
      EscapePlain(text[1..]);
    }
  }

  /**
   * Escaping never shortens the text, and keeps its length exactly when no
   * special character is present.
   */
  lemma {:induction false} EscapeLength(text: string)
    ensures |EscapeHtml(text)| >= |text|
    ensures |EscapeHtml(text)| == |text| <==> forall i | 0 <= i < |text| :: !IsSpecial(text[i])
    decreases |text|
  {
    if text != [] {
      EscapeLength(text[1..]);
      if IsSpecial(text[0]) {
        assert !(forall i | 0 <= i < |text| :: !IsSpecial(text[i]));
      } else {
        assert (forall i | 0 <= i < |text| :: !IsSpecial(text[i])) <==>
               (forall i | 0 <= i < |text[1..]| :: !IsSpecial(text[1..][i]));
      }
    }
  }

  /** A left-to-right decoder of the five entities the escape map produces. */
  function Unescape(s: string): (r: string)
    ensures |r| <= |s|
    decreases |s|
  {
    if s == [] then []
    else if |s| >= 5 && s[..5] == "&amp;" then "&" + Unescape(s[5..])
    else if |s| >= 4 && s[..4] == "&lt;" then "<" + Unescape(s[4..])
    else if |s| >= 4 && s[..4] == "&gt;" then ">" + Unescape(s[4..])
    else if |s| >= 6 && s[..6] == "&quot;" then "\"" + Unescape(s[6..])
    else if |s| >= 5 && s[..5] == "&#39;" then "'" + Unescape(s[5..])
    else [s[0]] + Unescape(s[1..])
  }

  /** The decoder undoes the escape of one character in front of any rest. */
  lemma UnescapeStep(c: char, rest: string)
    ensures Unescape(EscapeChar(c) + rest) == [c] + Unescape(rest)
  {
    match c
    case '&' => UnescapeEntity("&amp;", "&", rest);
    case '<' => UnescapeEntity("&lt;", "<", rest);
    case '>' => UnescapeEntity("&gt;", ">", rest);
    case '"' => UnescapeEntity("&quot;", "\"", rest);
    case '\'' => UnescapeEntity("&#39;", "'", rest);
    case _ =>
      var s := [c] + rest;
      assert s[0] == c && s[1..] == rest;
  }

  /** Each entity of the escape map, in front of any rest, decodes to its character. */
  lemma UnescapeEntity(e: string, d: string, rest: string)
    requires (e, d) in {("&amp;", "&"), ("&lt;", "<"), ("&gt;", ">"), ("&quot;", "\""), ("&#39;", "'")}
    ensures Unescape(e + rest) == d + Unescape(rest)
  {
    var s := e + rest;
    assert s[..|e|] == e && s[|e|..] == rest;
    assert s[1] == e[1];
  }

  /** Round trip: decoding the escaped text gives back the original. */
  lemma {:induction false} UnescapeEscape(text: string)
    ensures Unescape(EscapeHtml(text)) == text
    decreases |text|
  {
    if text != [] {
      UnescapeStep(text[0], EscapeHtml(text[1..]));
      UnescapeEscape(text[1..]);
    }
  }

  // ----- log entries -----

  /** The CSS class of a log entry: `"user"` for the role `"You"`, `"ai"` for any other. */
  function CssRole(role: string): (css: string)
    ensures css == "user" <==> role == "You"
    ensures css == "user" || css == "ai"
  {
    if role == "You" then "user" else "ai"
  }

  // ----- sending a prompt -----

  /**
   * What a send action does: show an alert and send nothing, or post `query`
   * to `/ask` after logging `echo` as the user's message.
   */
  datatype Action = Alert(message: string) | Send(query: string, echo: string)

  /** `sendPrompt` on the prompt field's value. */
  function SendPrompt(field: string): (a: Action)
  {
    var prompt := Trim(field);
    if prompt == [] then Alert("Please enter a question.")
    else Send(prompt, prompt)
  }

  /** `sendPromptWithSelection` on the selected text and the prompt field's value. */
  function SendPromptWithSelection(selection: string, field: string): (a: Action)
  {
    var selected, prompt := Trim(selection), Trim(field);
    if selected == [] then Alert("Please select some text.")
    else if prompt == [] then Alert("Please enter a question.")
    else Send(prompt + "\n\nSelected Text:\n" + selected, prompt + "\n\n(Selected Text: " + selected + ")")
  }

  /**
   * `sendPrompt` sends nothing exactly when the field is blank; otherwise it
   * sends and echoes the field without its surrounding whitespace, which is
   * then neither empty nor padded.
   */
  lemma SendPromptGuard(field: string)
    ensures SendPrompt(field).Alert? <==> AllSpace(field)
    ensures SendPrompt(field).Alert? ==> SendPrompt(field).message == "Please enter a question."
    ensures SendPrompt(field).Send? ==>
      var a := SendPrompt(field);
      a.query == a.echo &&
      exists lead, trail :: field == lead + a.query + trail && AllSpace(lead) && AllSpace(trail)
    ensures SendPrompt(field).Send? ==>
      var q := SendPrompt(field).query;
      q != [] && !IsSpace(q[0]) && !IsSpace(q[|q| - 1])
  {
    TrimSpec(field);
  }

  /**
   * `sendPromptWithSelection` checks the selection before the prompt: a blank
   * selection is rejected whatever the prompt, then a blank prompt; otherwise
   * the query is the trimmed prompt, the separator line and the trimmed
   * selection.
   */
  lemma SendWithSelectionGuard(selection: string, field: string)
    ensures var a := SendPromptWithSelection(selection, field);
      (a == Alert("Please select some text.") <==> AllSpace(selection)) &&
      (a == Alert("Please enter a question.") <==> !AllSpace(selection) && AllSpace(field)) &&
      (a.Send? <==> !AllSpace(selection) && !AllSpace(field))
    ensures var a := SendPromptWithSelection(selection, field);
      a.Send? ==>
        a.query == Trim(field) + "\n\nSelected Text:\n" + Trim(selection) &&
        a.echo == Trim(field) + "\n\n(Selected Text: " + Trim(selection) + ")"
  {
    TrimSpec(selection);
    TrimSpec(field);
  }

  // ----- showing the reply -----

  /** `data.answer || "No answer returned."` for the parsed reply body. */
  function DisplayedAnswer(reply: Server.Response): (shown: string)
  {
    if reply.Answer? && reply.answer.Some? && reply.answer.value != "" then reply.answer.value
    else "No answer returned."
  }

  /**
   * The pane shows the answer when it is a non-empty string and the fallback
   * otherwise, in particular for the handler's 500 error reply; it never shows
   * an empty bubble.
   */
  lemma DisplayedAnswerSpec(reply: Server.Response)
    ensures var shown := DisplayedAnswer(reply);
      shown != "" &&
      (shown == "No answer returned." || (reply.Answer? && reply.answer == Some(shown))) &&
      (reply.Answer? && reply.answer.Some? && reply.answer.value != "" ==> reply.answer == Some(shown))
    ensures DisplayedAnswer(Server.InternalError) == "No answer returned."
  {
  }
}
