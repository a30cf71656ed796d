/** internal/cmd/check.go: the `check` command's flag handling, its pass/fail
    decision and the one-line rendering of a check. The check itself is sent
    to the remote service; its answer is an input here. */
module CheckCmd {
  import opened Wrappers
  import opened GoStrings
  import opened Reader

  /** strconv.FormatBool, the `%t` verb. */
  function FormatBool(b: bool): (s: string)
    ensures s == "true" <==> b
    ensures s == "false" <==> !b
  {
    if b then "true" else "false"
  }

  /** The characters strconv.Quote escapes among the ASCII ones: the quote,
      the backslash and the control characters. */
  predicate NeedsEscape(c: char)
  {
    c == '"' || c == '\\' || c < ' ' || c == '\U{7F}'
  }

  function HexDigit(n: nat): (d: char)
    requires n < 16
    ensures '0' <= d <= '9' || 'a' <= d <= 'f'
  {
    "0123456789abcdef"[n]
  }

  /** How strconv.Quote writes one character: a backslash escape for the
      quote, the backslash and the control characters (a short form where Go
      has one, `\xNN` otherwise), the character itself for the rest. */
  function QuoteChar(c: char): (q: string)
    ensures q == [c] <==> !NeedsEscape(c)
    ensures NeedsEscape(c) ==> |q| >= 2 && q[0] == '\\'
  {
    if c == '"' then "\\\""
    else if c == '\\' then "\\\\"
    else if c == '\U{7}' then "\\a"
    else if c == '\U{8}' then "\\b"
    else if c == '\U{C}' then "\\f"
    else if c == '\n' then "\\n"
    else if c == '\r' then "\\r"
    else if c == '\t' then "\\t"
    else if c == '\U{B}' then "\\v"
    else if c < ' ' || c == '\U{7F}' then "\\x" + [HexDigit(c as int / 16), HexDigit(c as int % 16)]
    else [c]
  }

  /** The characters of a string, each written as QuoteChar writes it. */
  function QuoteBody(s: string): (q: string)
    ensures |q| >= |s|
  {
    if s == [] then [] else QuoteChar(s[0]) + QuoteBody(s[1..])
  }

  /** Escaping leaves a string as it is exactly when none of its characters
      needs an escape; otherwise it grows. */
  lemma {:induction false} QuoteBodyUnchanged(s: string)
    ensures QuoteBody(s) == s <==> forall k :: 0 <= k < |s| ==> !NeedsEscape(s[k])
  {
    if s != [] {
      QuoteBodyUnchanged(s[1..]);
      assert forall k :: 1 <= k < |s| ==> s[k] == s[1..][k - 1];
      assert [s[0]] + s[1..] == s;
    }
  }

  /** strconv.Quote: the string between double quotes, escaped. A string that
      needs no escape is only put between the quotes. */
  function Quote(s: string): (q: string)
    ensures |q| >= |s| + 2 && q[0] == '"' && q[|q| - 1] == '"'
    ensures q[1..|q| - 1] == QuoteBody(s)
    ensures q == "\"" + s + "\"" <==> forall k :: 0 <= k < |s| ==> !NeedsEscape(s[k])
  {
    QuoteBodyUnchanged(s);
    "\"" + QuoteBody(s) + "\""
  }

  /** Quoting writes each character independently. */
  lemma {:induction false} QuoteBodyConcat(a: string, b: string)
    ensures QuoteBody(a + b) == QuoteBody(a) + QuoteBody(b)
  {
    if a != [] {
      assert (a + b)[0] == a[0];
      assert (a + b)[1..] == a[1..] + b;
      QuoteBodyConcat(a[1..], b);
    } else {
      assert a + b == b;
    }
  }

  /** A quote inside the input is escaped with a backslash. */
  lemma QuoteEscapesQuote()
    ensures Quote("y\"es") == "\"y\\\"es\""
  {
    assert "y\"es" == "y" + "\"es";
    assert "\"es" == "\"" + "es";
    QuoteBodyUnchanged("y");
    QuoteBodyUnchanged("es");
    assert QuoteBody("\"") == "\\\"";
    QuoteBodyConcat("\"", "es");
    QuoteBodyConcat("y", "\"es");
  }

  /** strconv.ParseBool: the six spellings of each truth value, anything else
      is a syntax error naming the input, quoted. */
  function ParseBool(s: string): (r: Result<bool>)
    ensures r.Err? ==> r.msg == "strconv.ParseBool: parsing " + Quote(s) + ": invalid syntax"
    ensures r == Ok(true) <==> s in {"1", "t", "T", "TRUE", "true", "True"}
    ensures r == Ok(false) <==> s in {"0", "f", "F", "FALSE", "false", "False"}
  {
    if s in {"1", "t", "T", "TRUE", "true", "True"} then Ok(true)
    else if s in {"0", "f", "F", "FALSE", "false", "False"} then Ok(false)
    else Err("strconv.ParseBool: parsing " + Quote(s) + ": invalid syntax")
  }

  /** For an input that needs no escape, the message shows it between plain
      double quotes. */
  lemma ParseBoolMessagePlain(s: string)
    requires forall k :: 0 <= k < |s| ==> !NeedsEscape(s[k])
    requires ParseBool(s).Err?
    ensures ParseBool(s).msg == "strconv.ParseBool: parsing \"" + s + "\": invalid syntax"
  {
    QuoteBodyUnchanged(s);
  }

  /** ParseBool reads back what FormatBool writes. */
  lemma ParseFormatBool(b: bool)
    ensures ParseBool(FormatBool(b)) == Ok(b)
  {
  }

  /** The values of the `--assert`, `--debug` and `--warrant-token` flags. */
  datatype CheckFlags = CheckFlags(assertFlag: string, debug: bool, warrantToken: string)

  /** What the command sends: the expected value in assert mode, and the request. */
  datatype CheckPlan = CheckPlan(expected: Option<bool>, request: WarrantCheckParams)

  /** The part of `check` before the request is sent. A non-empty `--assert`
      value that does not parse is reported before the arguments are read; the
      request is then ReadCheckArgs' with `Debug` copied from its flag and the
      warrant token set when its flag is non-empty. */
  function PrepareCheck(flags: CheckFlags, args: seq<string>, decodeContext: string -> PolicyContext): (r: Result<CheckPlan>)
    requires 3 <= |args| <= 4
    ensures flags.assertFlag != "" && ParseBool(flags.assertFlag).Err? ==> r == Err(ParseBool(flags.assertFlag).msg)
    ensures r.Ok? <==> (flags.assertFlag == "" || ParseBool(flags.assertFlag).Ok?) && ReadCheckArgs(args, decodeContext).Ok?
    ensures (flags.assertFlag == "" || ParseBool(flags.assertFlag).Ok?) && ReadCheckArgs(args, decodeContext).Err?
            ==> r == Err(ReadCheckArgs(args, decodeContext).msg)
    ensures r.Ok? ==> (r.value.expected.None? <==> flags.assertFlag == "")
    ensures r.Ok? && flags.assertFlag != "" ==> r.value.expected == Some(ParseBool(flags.assertFlag).value)
    ensures r.Ok? ==>
      && r.value.request.check == ReadCheckArgs(args, decodeContext).value.check
      && r.value.request.debug == flags.debug
      && r.value.request.warrantToken == flags.warrantToken
  {
    var expected :=
      if flags.assertFlag == "" then Ok(None)
      else match ParseBool(flags.assertFlag)
           case Err(e) => Err(e)
           case Ok(b) => Ok(Some(b));
    match expected
    case Err(e) => Err(e)
    case Ok(mode) =>
      match ReadCheckArgs(args, decodeContext)
      case Err(e) => Err(e)
      case Ok(spec) =>
        var spec := spec.(debug := flags.debug);
        var spec := if flags.warrantToken != "" then spec.(warrantToken := flags.warrantToken) else spec;
        Ok(CheckPlan(mode, spec))
  }

  /** What the command shows and how it ends: a check mark or a cross, the caption
      beside it, and the exit status. */
  datatype Verdict = Verdict(checkmark: bool, caption: string, exitCode: nat)

  /** Assert mode passes exactly when the answer equals the expected value and
      exits with status 1 otherwise; plain mode shows the answer and always ends
      with status 0. */
  function Decide(expected: Option<bool>, answer: bool): (v: Verdict)
    ensures v.exitCode == 0 || v.exitCode == 1
    ensures v.exitCode == 1 <==> expected.Some? && answer != expected.value
    ensures expected.Some? ==> v.checkmark == (answer == expected.value)
    ensures expected.Some? ==> v.caption == "assert " + FormatBool(expected.value)
    ensures expected.None? ==> v.checkmark == answer && v.caption == FormatBool(answer)
  {
    match expected
    case Some(want) =>
      if answer == want then Verdict(true, "assert " + FormatBool(want), 0)
      else Verdict(false, "assert " + FormatBool(want), 1)
    case None =>
      if answer then Verdict(true, "true", 0) else Verdict(false, "false", 0)
  }

  /** The `sType:sId relation oType:oId` part of checkSpecAsString. */
  function CheckLine(w: WarrantCheck): string
  {
    RefToken(w.subject.objectType, w.subject.objectId) + " " + w.relation + " "
      + RefToken(w.obj.objectType, w.obj.objectId)
  }

  /** checkSpecAsString: the check line, with ` '<json>'` appended only for a
      non-empty context; an encoding failure is returned as the error. */
  function CheckSpecAsString(w: WarrantCheck, marshal: PolicyContext -> Result<string>): (r: Result<string>)
    ensures |w.context| == 0 ==> r == Ok(CheckLine(w))
    ensures |w.context| > 0 ==> (r.Ok? <==> marshal(w.context).Ok?)
    ensures |w.context| > 0 && r.Ok? ==> r.value == CheckLine(w) + " '" + marshal(w.context).value + "'"
    ensures |w.context| > 0 && r.Err? ==> r.msg == marshal(w.context).msg
  {
    var s := CheckLine(w);
    if |w.context| > 0 then
      match marshal(w.context)
      case Err(e) => Err(e)
      case Ok(bytes) => Ok(s + " '" + bytes + "'")
    else Ok(s)
  }

  /** The subject's relation never shows in the rendered check. */
  lemma CheckSpecIgnoresSubjectRelation(w: WarrantCheck, relation: string, marshal: PolicyContext -> Result<string>)
    ensures CheckSpecAsString(w.(subject := w.subject.(relation := relation)), marshal) == CheckSpecAsString(w, marshal)
  {
  }

  /** Rendering a check read from three tokens (the subject without `#`) gives
      the tokens back, separated by single spaces. */
  lemma CheckLineRoundTrip(subject: string, relation: string, obj: string, decodeContext: string -> PolicyContext)
    requires ReadCheckArgs([subject, relation, obj], decodeContext).Ok?
    requires '#' !in subject
    ensures CheckLine(ReadCheckArgs([subject, relation, obj], decodeContext).value.check)
            == subject + " " + relation + " " + obj
  {
  }

  /** When no token holds a space, splitting the rendered line on spaces
      recovers the three tokens. */
  lemma CheckLineSplitsBack(w: WarrantCheck)
    requires ' ' !in RefToken(w.subject.objectType, w.subject.objectId)
    requires ' ' !in w.relation
    requires ' ' !in RefToken(w.obj.objectType, w.obj.objectId)
    ensures Split(CheckLine(w), ' ')
            == [RefToken(w.subject.objectType, w.subject.objectId), w.relation, RefToken(w.obj.objectType, w.obj.objectId)]
  {
    var subject := RefToken(w.subject.objectType, w.subject.objectId);
    var obj := RefToken(w.obj.objectType, w.obj.objectId);
    assert CheckLine(w) == subject + [' '] + (w.relation + [' '] + obj);
    SplitFirstSeparator(subject, w.relation + [' '] + obj, ' ');
    SplitFirstSeparator(w.relation, obj, ' ');
    SplitNoSeparator(obj, ' ');
  }
}
