/** The log line printer (server/utils/logger.js) and the parser that reads its lines back
    (server/utils/logParser.js). Date and JSON conversion are the platform's: a line is printed
    from the timestamp and details text they produce, and parsing returns those texts. */
module LogFormat {
  import opened Common

  datatype Parsed = Parsed(timestamp: Option<string>, level: string, moduleName: string,
                           message: string, details: Option<string>)

  // ---------- strings ----------

  /** The characters that both trim() and the \s of a regular expression match. */
  predicate IsSpace(c: char) {
    c in " \t\n\r" || c in {'\U{000B}', '\U{000C}', '\U{00A0}', '\U{1680}', '\U{2028}', '\U{2029}',
                            '\U{202F}', '\U{205F}', '\U{3000}', '\U{FEFF}'} || '\U{2000}' <= c <= '\U{200A}'
  }

  function TrimLeft(s: string): string {
    if s != "" && IsSpace(s[0]) then TrimLeft(s[1..]) else s
  }

  function TrimRight(s: string): string {
    if s != "" && IsSpace(s[|s| - 1]) then TrimRight(s[..|s| - 1]) else s
  }

  function Trim(s: string): string {
    TrimRight(TrimLeft(s))
  }

  /** Nonempty, with no space at either end. */
  predicate Trimmed(s: string) {
    s != "" && !IsSpace(s[0]) && !IsSpace(s[|s| - 1])
  }

  /** The position of the first `c`, or the length when there is none. */
  function IndexOfChar(s: string, c: char): (i: nat)
    ensures i <= |s|
    ensures forall k :: 0 <= k < i ==> s[k] != c
    ensures i < |s| ==> s[i] == c
  {
    if s == "" || s[0] == c then 0 else 1 + IndexOfChar(s[1..], c)
  }

  const SEPARATOR := " | "

  predicate SeparatorAt(s: string, i: nat) {
    i + 3 <= |s| && s[i..i + 3] == SEPARATOR
  }

  /** indexOf(" | "): the first position of the separator, or -1. */
  function IndexOfSeparator(s: string): (i: int)
    ensures -1 <= i
    ensures i >= 0 ==> SeparatorAt(s, i) && forall k :: 0 <= k < i ==> !SeparatorAt(s, k)
    ensures i == -1 ==> forall k: nat :: !SeparatorAt(s, k)
  {
    if |s| < 3 then -1
    else if SeparatorAt(s, 0) then 0
    else
      var rest := IndexOfSeparator(s[1..]);
      assert forall k: nat :: k > 0 ==> (SeparatorAt(s, k) <==> SeparatorAt(s[1..], k - 1));
      if rest == -1 then -1 else rest + 1
  }

  // ---------- printing ----------

  /** A bracketed text, a space, and what follows. */
  function Wrap(text: string, rest: string): string {
    "[" + text + "] " + rest
  }

  /** The message and, after a separator, the details. */
  function Tail(message: string, details: Option<string>): string {
    message + (if details.Some? then SEPARATOR + details.value else "")
  }

  /** formatLog, given the texts of the timestamp and of the details (None when falsy). */
  function FormatLog(timestamp: string, level: string, category: string, message: string,
                     details: Option<string>): string {
    Wrap(timestamp, Wrap(level, Wrap(category, Tail(message, details))))
  }

  // ---------- parsing ----------

  /** One `\[([^\]]+)]` followed by `\s+`: the bracketed text and what follows the spaces. */
  function Bracketed(s: string): Option<(string, string)> {
    if s == "" || s[0] != '[' then None
    else
      var close := IndexOfChar(s[1..], ']');
      if close == 0 || close == |s[1..]| then None
      else
        var rest := s[close + 2..];
        if rest == "" || !IsSpace(rest[0]) then None
        else Some((s[1..close + 1], TrimLeft(rest)))
  }

  const LEVELS := {"ERROR", "WARN", "INFO", "DEBUG"}

  function UpperChar(c: char): char {
    if 'a' <= c <= 'z' then ((c as int) - 32) as char else c
  }

  function ToUpper(s: string): (u: string)
    ensures |u| == |s|
  {
    if s == "" then "" else [UpperChar(s[0])] + ToUpper(s[1..])
  }

  /** The message and details of the text after the three brackets. */
  function SplitPayload(payload: string): (string, Option<string>) {
    var i := IndexOfSeparator(payload);
    if i < 0 then (Trim(payload), None)
    else
      var raw := Trim(payload[i + 3..]);
      (Trim(payload[..i]), if raw == "" then None else Some(raw))
  }

  function Unmatched(line: string): Parsed {
    Parsed(None, "INFO", "Unknown", line, None)
  }

  /** parseLogLine, without the category and file name it only passes through. */
  function ParseLogLine(rawLine: string): Option<Parsed> {
    var line := Trim(rawLine);
    if line == "" then None
    else
      var first := Bracketed(line);
      if first == None then Some(Unmatched(line))
      else
        var second := Bracketed(first.value.1);
        if second == None then Some(Unmatched(line))
        else
          var third := Bracketed(second.value.1);
          if third == None then Some(Unmatched(line))
          else
            var level := ToUpper(second.value.0);
            var (message, details) := SplitPayload(third.value.1);
            Some(Parsed(Some(first.value.0), if level in LEVELS then level else "INFO",
                        third.value.0, message, details))
  }

  // ---------- the round trip ----------

  /** Text that a bracket pair can hold. */
  predicate Bracketable(s: string) {
    s != "" && ']' !in s
  }

  predicate HasSeparator(s: string) {
    IndexOfSeparator(s) >= 0
  }

  /** The messages that survive the trip: trimmed, free of the separator, and, when details
      follow, not ending in what would complete a separator one step early. */
  predicate Survives(message: string, details: Option<string>) {
    && Trimmed(message)
    && !HasSeparator(message)
    && (details.Some? ==> |message| >= 2 ==> message[|message| - 2..] != " |")
  }

  lemma {:induction false} TrimLeftFacts(s: string)
    ensures exists n: nat :: n <= |s| && TrimLeft(s) == s[n..] && forall k :: 0 <= k < n ==> IsSpace(s[k])
    ensures TrimLeft(s) == "" || !IsSpace(TrimLeft(s)[0])
  {
    if s != "" && IsSpace(s[0]) {
      TrimLeftFacts(s[1..]);
      var n: nat :| n <= |s[1..]| && TrimLeft(s[1..]) == s[1..][n..] && forall k :: 0 <= k < n ==> IsSpace(s[1..][k]);
      assert TrimLeft(s) == s[n + 1..];
      assert forall k :: 0 <= k < n + 1 ==> IsSpace(s[k]) by {
        forall k | 0 < k < n + 1 ensures IsSpace(s[k]) {
          assert s[k] == s[1..][k - 1];
        }
      }
    } else {
      assert s[0..] == s;
    }
  }

  lemma {:induction false} TrimRightFacts(s: string)
    ensures TrimRight(s) <= s
    ensures TrimRight(s) == "" || !IsSpace(TrimRight(s)[|TrimRight(s)| - 1])
  {
    if s == "" || !IsSpace(s[|s| - 1]) {
    } else {
      TrimRightFacts(s[..|s| - 1]);
    }
  }

  /** Trimming changes nothing exactly on text without outer spaces, and its result has none. */
  lemma {:induction false} TrimFixes(s: string)
    ensures Trim(s) == s <==> s == "" || Trimmed(s)
    ensures Trim(s) == "" || Trimmed(Trim(s))
    ensures |Trim(s)| <= |s|
  {
    TrimLeftFacts(s);
    TrimRightFacts(TrimLeft(s));
  }

  /** One bracketed text is read back whole; whatever is read fits a bracket pair. */
  lemma {:induction false} BracketedReads(text: string, rest: string)
    requires Bracketable(text)
    ensures Bracketed(Wrap(text, rest)) == Some((text, TrimLeft(rest)))
    ensures Bracketed("[" + text + "]") == None
  {
    var s := Wrap(text, rest);
    assert s[1..] == text + ("] " + rest);
    assert s[1..][|text|] == ']';
    assert s[1..|text| + 1] == text;
    assert s[|text| + 2..] == " " + rest;
    assert (" " + rest)[1..] == rest;
    var t := "[" + text + "]";
    assert t[1..] == text + "]";
    assert t[1..][|text|] == ']';
  }

  lemma {:induction false} BracketedText(s: string)
    ensures Bracketed(s).Some? ==> Bracketable(Bracketed(s).value.0)
  {
    if Bracketed(s).Some? {
      var text := Bracketed(s).value.0;
      forall k | 0 <= k < |text| ensures text[k] != ']' {
        assert text[k] == s[1..][k];
      }
    }
  }

  /** Any blank may follow the bracket, and all blanks that do are skipped. */
  lemma {:induction false} BracketedTakes(text: string, blank: char, rest: string)
    requires Bracketable(text) && IsSpace(blank)
    ensures Bracketed("[" + text + "]" + [blank] + rest) == Some((text, TrimLeft(rest)))
  {
    var s := "[" + text + "]" + [blank] + rest;
    assert s[1..] == text + ("]" + [blank] + rest);
    assert s[1..][|text|] == ']';
    assert s[1..|text| + 1] == text;
    assert s[|text| + 2..] == [blank] + rest;
    assert ([blank] + rest)[1..] == rest;
  }

  /** What matches one bracket: a nonempty text without a closing bracket between brackets, and a blank. */
  lemma {:induction false} BracketedNeeds(s: string)
    requires Bracketed(s).Some?
    ensures var text := Bracketed(s).value.0;
            && Bracketable(text) && |s| >= |text| + 3
            && s[0] == '[' && s[1..|text| + 1] == text && s[|text| + 1] == ']' && IsSpace(s[|text| + 2])
            && Bracketed(s).value.1 == TrimLeft(s[|text| + 2..])
  {
    BracketedText(s);
    var close := IndexOfChar(s[1..], ']');
    assert s[1..][close] == s[close + 1];
  }

  lemma {:induction false} TrimRightConcat(a: string, b: string)
    ensures TrimRight(a + b) == if TrimRight(b) != "" then a + TrimRight(b) else TrimRight(a)
  {
    if b == "" {
      assert a + b == a;
    } else if IsSpace(b[|b| - 1]) {
      assert (a + b)[..|a + b| - 1] == a + b[..|b| - 1];
      TrimRightConcat(a, b[..|b| - 1]);
    }
  }

  /** On a trimmed message the payload splits back into its parts exactly when the message survives. */
  lemma {:induction false} PayloadIff(message: string, details: Option<string>)
    requires Trimmed(message) && (details.Some? ==> Trimmed(details.value))
    ensures SplitPayload(Tail(message, details)) == (message, details) <==> Survives(message, details)
  {
    TrimFixes(message);
    match details
    case None =>
      assert message + "" == message;
      var i := IndexOfSeparator(message);
      if i >= 0 {
        TrimFixes(message[..i]);
      }
    case Some(text) =>
      TrimFixes(text);
      DetailsIff(message, text);
  }

  lemma {:induction false} DetailsIff(message: string, text: string)
    requires Trimmed(message) && Trimmed(text) && Trim(message) == message && Trim(text) == text
    ensures SplitPayload(message + (SEPARATOR + text)) == (message, Some(text)) <==> Survives(message, Some(text))
  {
    var n, payload := |message|, message + (SEPARATOR + text);
    assert payload[n..n + 3] == SEPARATOR && SeparatorAt(payload, n);
    assert payload[..n] == message && payload[n + 3..] == text;
    var i := IndexOfSeparator(payload);
    assert 0 <= i <= n;
    forall k | 0 <= k < n
      ensures SeparatorAt(payload, k) <==> SeparatorAt(message, k) || (k == n - 2 && message[k..] == " |")
    {
      SeparatorInside(message, text, k);
    }
    if i < n {
      TrimFixes(payload[..i]);
    }
  }

  /** Where a separator can start inside the message part of a payload. */
  lemma SeparatorInside(message: string, text: string, k: nat)
    requires k < |message|
    ensures SeparatorAt(message + (SEPARATOR + text), k)
       <==> SeparatorAt(message, k) || (k == |message| - 2 && message[k..] == " |")
  {
    var n, payload := |message|, message + (SEPARATOR + text);
    if k + 3 <= n {
      assert payload[k..k + 3] == message[k..k + 3];
    } else if k == n - 2 {
      assert payload[k..k + 3] == message[k..] + " ";
      assert SEPARATOR == " |" + " ";
      if message[k..] + " " == SEPARATOR {
        assert (message[k..] + " ")[..2] == message[k..];
      }
    } else {
      assert payload[k + 1] == ' ' && SEPARATOR[1] == '|';
    }
  }

  lemma WrapIsTrimmedLeft(text: string, rest: string)
    ensures Wrap(text, rest) != "" && Wrap(text, rest)[0] == '[' && TrimLeft(Wrap(text, rest)) == Wrap(text, rest)
  {
  }

  /** Reading a line whose header can be read: the first two brackets always come back. */
  lemma {:induction false} HeaderReads(timestamp: string, level: string, third: string)
    requires Bracketable(timestamp) && Bracketable(level) && third != "" && third[0] == '['
    ensures Bracketed(Wrap(timestamp, Wrap(level, third))) == Some((timestamp, Wrap(level, third)))
    ensures Bracketed(Wrap(level, third)) == Some((level, third))
  {
    hide TrimLeft, Bracketed, Bracketable, Wrap;
    var two := Wrap(level, third);
    BracketedReads(timestamp, two);
    assert TrimLeft(two) == two by {
      WrapIsTrimmedLeft(level, third);
    }
    BracketedReads(level, third);
    StartsTrimmed(third);
  }

  lemma StartsTrimmed(s: string)
    requires s != "" && !IsSpace(s[0])
    ensures TrimLeft(s) == s
  {
  }

  /** Trimming a printed line only reaches its tail, and the space before a blank one. */
  lemma {:induction false} LineTrims(timestamp: string, level: string, category: string, tail: string)
    ensures Trim(Wrap(timestamp, Wrap(level, Wrap(category, tail)))) ==
            Wrap(timestamp,
                 Wrap(level, if TrimRight(tail) == "" then "[" + category + "]" else Wrap(category, TrimRight(tail))))
  {
    hide TrimRight, TrimLeft;
    LastBracketTrims(category, tail);
    var third := Wrap(category, tail);
    WrapTrims(level, third);
    WrapTrims(timestamp, Wrap(level, third));
    WrapIsTrimmedLeft(timestamp, Wrap(level, third));
  }

  lemma WrapTrims(text: string, rest: string)
    requires TrimRight(rest) != ""
    ensures TrimRight(Wrap(text, rest)) == Wrap(text, TrimRight(rest)) != ""
  {
    hide TrimRight;
    TrimRightConcat("[" + text + "] ", rest);
  }

  lemma LastBracketTrims(category: string, tail: string)
    ensures TrimRight(Wrap(category, tail))
            == (if TrimRight(tail) == "" then "[" + category + "]" else Wrap(category, TrimRight(tail))) != ""
  {
    var close := "[" + category + "]";
    assert TrimRight(" ") == TrimRight("") == "";
    assert TrimRight(close) == close;
    TrimRightConcat(close, " ");
    assert close + " " == "[" + category + "] ";
    TrimRightConcat("[" + category + "] ", tail);
  }

  lemma KnownLevel(level: string)
    requires level in LEVELS
    ensures ToUpper(level) == level && Bracketable(level)
  {
    hide ToUpper, UpperChar;
    UpperFixes(level);
  }

  lemma {:induction false} UpperFixes(s: string)
    requires forall k :: 0 <= k < |s| ==> 'A' <= s[k] <= 'Z'
    ensures ToUpper(s) == s
  {
    if s == "" {
    } else {
      UpperFixes(s[1..]);
    }
  }

  /** What is parsed from a printed line, when its category can be bracketed and its tail is not blank. */
  lemma {:induction false} ParsesTo(timestamp: string, level: string, category: string, tail: string)
    requires Bracketable(timestamp) && level in LEVELS && Bracketable(category) && TrimRight(tail) != ""
    ensures var (message, details) := SplitPayload(TrimLeft(TrimRight(tail)));
            ParseLogLine(Wrap(timestamp, Wrap(level, Wrap(category, tail)))) ==
            Some(Parsed(Some(timestamp), level, category, message, details))
  {
    LineTrims(timestamp, level, category, tail);
    KnownLevel(level);
    HeaderReads(timestamp, level, Wrap(category, TrimRight(tail)));
    BracketedReads(category, TrimRight(tail));
  }

  /** What is parsed from a line with any level: the level in capitals if it is a known one, else INFO. */
  lemma {:induction false} AnyLevelParsesTo(timestamp: string, level: string, category: string, tail: string)
    requires Bracketable(timestamp) && Bracketable(level) && Bracketable(category) && TrimRight(tail) != ""
    ensures var (message, details) := SplitPayload(TrimLeft(TrimRight(tail)));
            var upper := ToUpper(level);
            var known := upper in {"ERROR", "WARN", "INFO", "DEBUG"};
            ParseLogLine(Wrap(timestamp, Wrap(level, Wrap(category, tail)))) ==
            Some(Parsed(Some(timestamp), if known then upper else "INFO", category, message, details))
  {
    hide ToUpper, UpperChar, SplitPayload, Bracketed, TrimRight, Trim, IndexOfChar;
    LineTrims(timestamp, level, category, tail);
    HeaderReads(timestamp, level, Wrap(category, TrimRight(tail)));
    BracketedReads(category, TrimRight(tail));
  }

  /** Capitals: the small letters become the large ones, and all else stays. */
  lemma {:induction false} UpperIs(s: string, k: nat)
    requires k < |s|
    ensures 'a' <= s[k] <= 'z' ==> ToUpper(s)[k] as int == s[k] as int - 'a' as int + 'A' as int
    ensures !('a' <= s[k] <= 'z') ==> ToUpper(s)[k] == s[k]
  {
    if k == 0 {
    } else {
      UpperIs(s[1..], k - 1);
    }
  }

  /** Nothing comes of a line exactly when it is all blank. */
  lemma NothingIff(rawLine: string)
    ensures ParseLogLine(rawLine).None? <==> forall k :: 0 <= k < |rawLine| ==> IsSpace(rawLine[k])
  {
    hide IsSpace, Trim;
    BlankIff(rawLine);
    assert ParseLogLine(rawLine).None? <==> Trim(rawLine) == "" by {
      NothingOfNothing(rawLine);
    }
  }

  lemma NothingOfNothing(rawLine: string)
    ensures ParseLogLine(rawLine).None? <==> Trim(rawLine) == ""
  {
    hide Trim, Bracketed, SplitPayload, ToUpper;
  }

  lemma {:induction false} BlankIff(s: string)
    ensures Trim(s) == "" <==> forall k :: 0 <= k < |s| ==> IsSpace(s[k])
  {
    hide IsSpace;
    TrimLeftFacts(s);
    TrimRightFacts(TrimLeft(s));
    var n: nat :| n <= |s| && TrimLeft(s) == s[n..] && forall k :: 0 <= k < n ==> IsSpace(s[k]);
    if n == |s| {
      assert TrimLeft(s) == "" && Trim(s) == "";
    } else {
      assert TrimLeft(s)[0] == s[n];
      VisibleStays(TrimLeft(s), 0);
    }
  }

  /** A line without the three brackets is taken whole as a message without a time or details. */
  lemma UnmatchedLine(rawLine: string)
    requires Trim(rawLine) != ""
    requires var first := Bracketed(Trim(rawLine));
             first.Some? ==> var second := Bracketed(first.value.1);
                             second.Some? ==> Bracketed(second.value.1).None?
    ensures ParseLogLine(rawLine) == Some(Parsed(None, "INFO", "Unknown", Trim(rawLine), None))
  {
    hide Trim, Bracketed, SplitPayload, ToUpper;
  }

  /** A line that begins otherwise than with a bracket is taken as a message without a time or details. */
  lemma PlainLine(rawLine: string)
    requires Trim(rawLine) != "" && Trim(rawLine)[0] != '['
    ensures ParseLogLine(rawLine) == Some(Parsed(None, "INFO", "Unknown", Trim(rawLine), None))
  {
  }

  /** Any line that parses to a given category and timestamp was printed with a tail that reaches the split. */
  lemma {:induction false} ParsedBackOnlyIf(timestamp: string, level: string, category: string, tail: string)
    requires Bracketable(timestamp) && level in LEVELS
    requires var p := ParseLogLine(Wrap(timestamp, Wrap(level, Wrap(category, tail))));
             p.Some? && p.value.timestamp == Some(timestamp) && p.value.moduleName == category
    ensures Bracketable(category) && TrimRight(tail) != ""
  {
    LineTrims(timestamp, level, category, tail);
    KnownLevel(level);
    var third := if TrimRight(tail) == "" then "[" + category + "]" else Wrap(category, TrimRight(tail));
    HeaderReads(timestamp, level, third);
    BracketedText(third);
    BracketedReads(category, tail);
  }

  /** The round trip: for a known level and any timestamp text without a closing bracket, parsing a
      printed line returns every part exactly when the category fits its brackets and the message survives. */
  lemma {:induction false} RoundTripIff(timestamp: string, level: string, category: string, message: string,
                                        details: Option<string>)
    requires Bracketable(timestamp) && level in LEVELS
    requires details.Some? ==> Trimmed(details.value)
    ensures ParseLogLine(FormatLog(timestamp, level, category, message, details))
              == Some(Parsed(Some(timestamp), level, category, message, details))
       <==> Bracketable(category) && Survives(message, details)
  {
    var tail := Tail(message, details);
    var good := Some(Parsed(Some(timestamp), level, category, message, details));
    if Bracketable(category) && Survives(message, details) {
      TailTrimmed(message, details);
      ParsesTo(timestamp, level, category, tail);
      PayloadIff(message, details);
    }
    if ParseLogLine(FormatLog(timestamp, level, category, message, details)) == good {
      ParsedBackOnlyIf(timestamp, level, category, tail);
      ParsesTo(timestamp, level, category, tail);
      SplitTrimmed(message, details);
      TailTrimmed(message, details);
      PayloadIff(message, details);
    }
  }

  lemma TailTrimmed(message: string, details: Option<string>)
    requires Trimmed(message) && (details.Some? ==> Trimmed(details.value))
    ensures TrimLeft(TrimRight(Tail(message, details))) == TrimRight(Tail(message, details))
            == Tail(message, details) != ""
  {
  }

  /** A payload split never returns a message with outer spaces, nor an empty one before details. */
  lemma {:induction false} SplitTrimmed(message: string, details: Option<string>)
    requires details.Some? ==> Trimmed(details.value)
    requires TrimRight(Tail(message, details)) != ""
    requires SplitPayload(TrimLeft(TrimRight(Tail(message, details)))) == (message, details)
    ensures Trimmed(message)
  {
    var payload := TrimLeft(TrimRight(Tail(message, details)));
    TrimFixes(payload);
    var i := IndexOfSeparator(payload);
    if i >= 0 {
      TrimFixes(payload[..i]);
    }
    if message == "" && details.Some? {
      BlankBeforeDetails(details.value);
    }
  }

  /** Details printed after an empty message parse as a message that starts with the bar. */
  lemma {:induction false} BlankBeforeDetails(text: string)
    requires Trimmed(text)
    ensures SplitPayload(TrimLeft(TrimRight(Tail("", Some(text))))) != ("", Some(text))
  {
    var tail, payload := SEPARATOR + text, "| " + text;
    assert Tail("", Some(text)) == tail;
    assert TrimRight(tail) == tail;
    assert TrimLeft(tail) == payload by {
      assert IsSpace(tail[0]) && tail[1..] == payload && !IsSpace(payload[0]);
    }
    BarFirst(payload);
  }

  lemma {:induction false} BarFirst(payload: string)
    requires payload != "" && payload[0] == '|'
    ensures SplitPayload(payload).0 != ""
  {
    StartsVisible(payload);
    var i := IndexOfSeparator(payload);
    if i >= 0 {
      assert i > 0;
      StartsVisible(payload[..i]);
    }
  }

  lemma StartsVisible(s: string)
    requires s != "" && !IsSpace(s[0])
    ensures Trim(s) != ""
  {
    if TrimRight(s) == "" {
      VisibleStays(s, 0);
    }
  }

  lemma {:induction false} VisibleStays(s: string, k: nat)
    requires k < |s| && !IsSpace(s[k])
    ensures TrimRight(s) != ""
  {
    if !IsSpace(s[|s| - 1]) {
    } else {
      VisibleStays(s[..|s| - 1], k);
    }
  }
}
