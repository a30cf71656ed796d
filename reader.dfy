/** internal/reader/reader.go: the `type:id` and `type:id#relation` token
    grammar, and the builders of check and warrant requests. */
module Reader {
  import opened Wrappers
  import opened GoStrings

  /** warrant.Object: an object reference. */
  datatype ObjectRef = ObjectRef(objectType: string, objectId: string)

  /** warrant.Subject: an object reference with an optional relation ("" when absent). */
  datatype SubjectRef = SubjectRef(objectType: string, objectId: string, relation: string)

  /** warrant.PolicyContext; the values stand for JSON values, which are not modelled. */
  type PolicyContext = map<string, string>

  /** warrant.WarrantCheck. */
  datatype WarrantCheck = WarrantCheck(obj: ObjectRef, relation: string, subject: SubjectRef, context: PolicyContext)

  /** warrant.WarrantCheckParams: a check plus the request options. */
  datatype WarrantCheckParams = WarrantCheckParams(check: WarrantCheck, debug: bool, warrantToken: string)

  /** warrant.WarrantParams: a warrant to create or delete. */
  datatype WarrantParams = WarrantParams(objectType: string, objectId: string, relation: string, subject: SubjectRef, policy: string)

  /** `type:id`, the form the parsers accept. */
  function RefToken(objectType: string, objectId: string): string
  {
    objectType + ":" + objectId
  }

  /** How Go's `%s` verb prints a `[]string`: `[a b c]`. */
  function FormatArgs(args: seq<string>): (r: string)
    ensures |r| >= 2 && r[0] == '[' && r[|r| - 1] == ']'
    ensures args == [] ==> r == "[]"
  {
    "[" + Join(args, ' ') + "]"
  }

  /** The bracketed list gives the arguments back when none of them holds a
      space: splitting its inside on spaces recovers them. */
  lemma FormatArgsSplitsBack(args: seq<string>)
    requires args != []
    requires forall i :: 0 <= i < |args| ==> ' ' !in args[i]
    ensures var r := FormatArgs(args); Split(r[1..|r| - 1], ' ') == args
  {
    var r := FormatArgs(args);
    assert r[1..|r| - 1] == Join(args, ' ');
    SplitJoin(args, ' ');
  }

  /** ReadObjectArg: succeeds exactly when the token holds one `:`, and then
      returns the text before and after it, with no check for empty parts and
      no special meaning for `#`. */
  function ReadObjectArg(arg: string): (r: Result<ObjectRef>)
    ensures r.Ok? <==> Count(arg, ':') == 1
    ensures r.Ok? ==> arg == RefToken(r.value.objectType, r.value.objectId)
    ensures r.Ok? ==> ':' !in r.value.objectType && ':' !in r.value.objectId
    ensures r.Err? ==> r.msg == "invalid object"
  {
    var typeAndId := Split(arg, ':');
    if |typeAndId| != 2 then Err("invalid object")
    else
      assert typeAndId == [typeAndId[0], typeAndId[1]];
      JoinTwo(typeAndId[0], typeAndId[1], ':');
      Ok(ObjectRef(typeAndId[0], typeAndId[1]))
  }

  /** ReadSubjectArg: at most one `#`; the part before it must hold exactly one
      `:`; whatever follows the `#` is the relation, colons included. A success
      returns the pieces the token is made of. */
  function ReadSubjectArg(arg: string): (r: Result<SubjectRef>)
    ensures r.Ok? <==> Count(arg, '#') <= 1 && Count(Split(arg, '#')[0], ':') == 1
    ensures Count(arg, '#') >= 2 ==> r == Err("invalid subject")
    ensures r.Err? ==> r.msg == "invalid subject"
    ensures r.Ok? ==> ':' !in r.value.objectType && ':' !in r.value.objectId
    ensures r.Ok? ==> '#' !in r.value.objectType && '#' !in r.value.objectId && '#' !in r.value.relation
    ensures r.Ok? ==>
      || arg == RefToken(r.value.objectType, r.value.objectId) + "#" + r.value.relation
      || (arg == RefToken(r.value.objectType, r.value.objectId) && r.value.relation == "")
  {
    var subjectAndRelation := Split(arg, '#');
    if |subjectAndRelation| > 2 then Err("invalid subject")
    else
      var typeAndId := Split(subjectAndRelation[0], ':');
      if |typeAndId| != 2 then Err("invalid subject")
      else
        assert typeAndId == [typeAndId[0], typeAndId[1]];
        JoinTwo(typeAndId[0], typeAndId[1], ':');
        if |subjectAndRelation| == 1 then
          Ok(SubjectRef(typeAndId[0], typeAndId[1], ""))
        else
          assert subjectAndRelation == [subjectAndRelation[0], subjectAndRelation[1]];
          JoinTwo(subjectAndRelation[0], subjectAndRelation[1], '#');
          Ok(SubjectRef(typeAndId[0], typeAndId[1], subjectAndRelation[1]))
  }

  /** Round trip of the object grammar: a type and an id without `:` come back unchanged. */
  lemma ObjectArgRoundTrip(objectType: string, objectId: string)
    requires ':' !in objectType && ':' !in objectId
    ensures ReadObjectArg(RefToken(objectType, objectId)) == Ok(ObjectRef(objectType, objectId))
  {
    JoinTwo(objectType, objectId, ':');
    SplitJoin([objectType, objectId], ':');
  }

  /** Round trip of the subject grammar with a relation: type and id free of `:`
      and `#`, a relation free of `#` (it may hold `:`, and may be empty). */
  lemma SubjectArgRoundTrip(objectType: string, objectId: string, relation: string)
    requires ':' !in objectType && ':' !in objectId
    requires '#' !in objectType && '#' !in objectId && '#' !in relation
    ensures ReadSubjectArg(RefToken(objectType, objectId) + "#" + relation)
            == Ok(SubjectRef(objectType, objectId, relation))
  {
    var token := RefToken(objectType, objectId);
    assert '#' !in token;
    JoinTwo(token, relation, '#');
    SplitJoin([token, relation], '#');
    ObjectArgRoundTrip(objectType, objectId);
  }

  /** Round trip of the subject grammar without `#`: the relation is empty. */
  lemma SubjectArgNoRelation(objectType: string, objectId: string)
    requires ':' !in objectType && ':' !in objectId
    requires '#' !in objectType && '#' !in objectId
    ensures ReadSubjectArg(RefToken(objectType, objectId)) == Ok(SubjectRef(objectType, objectId, ""))
  {
    var token := RefToken(objectType, objectId);
    assert '#' !in token;
    SplitNoSeparator(token, '#');
    ObjectArgRoundTrip(objectType, objectId);
  }

  /** No emptiness check: an empty id, or an empty type and id, are accepted. */
  lemma ObjectArgEmptyParts()
    ensures ReadObjectArg("type:") == Ok(ObjectRef("type", ""))
    ensures ReadObjectArg(":") == Ok(ObjectRef("", ""))
  {
    assert RefToken("type", "") == "type:";
    ObjectArgRoundTrip("type", "");
    assert RefToken("", "") == ":";
    ObjectArgRoundTrip("", "");
  }

  /** `#` has no meaning in an object token: it stays in the id. */
  lemma ObjectArgKeepsHash()
    ensures ReadObjectArg("role:a#b") == Ok(ObjectRef("role", "a#b"))
  {
    assert RefToken("role", "a#b") == "role:a#b";
    ObjectArgRoundTrip("role", "a#b");
  }

  /** A bare type and a token with two colons are both rejected. */
  lemma ObjectArgRejects()
    ensures ReadObjectArg("role") == Err("invalid object")
    ensures ReadObjectArg("a:b:c") == Err("invalid object")
  {
    assert "a:b:c" == "a" + ":b:c";
    CountConcat("a", ":b:c", ':');
    assert ":b:c" == ":" + "b:c";
    CountConcat(":", "b:c", ':');
    assert "b:c" == "b" + ":c";
    CountConcat("b", ":c", ':');
  }

  /** Colons after the `#` belong to the relation. */
  lemma SubjectArgColonInRelation()
    ensures ReadSubjectArg("user:1#a:b") == Ok(SubjectRef("user", "1", "a:b"))
  {
    var token := RefToken("user", "1");
    assert token + "#" + "a:b" == "user:1#a:b";
    SubjectArgRoundTrip("user", "1", "a:b");
  }

  /** A trailing `#` gives an empty relation. */
  lemma SubjectArgTrailingHash()
    ensures ReadSubjectArg("user:1#") == Ok(SubjectRef("user", "1", ""))
  {
    var token := RefToken("user", "1");
    assert token + "#" + "" == "user:1#";
    SubjectArgRoundTrip("user", "1", "");
  }

  /** Without `#` the relation is empty. */
  lemma SubjectArgWithoutHash()
    ensures ReadSubjectArg("user:56") == Ok(SubjectRef("user", "56", ""))
  {
    assert RefToken("user", "56") == "user:56";
    SubjectArgNoRelation("user", "56");
  }

  /** Two `#` are rejected. */
  lemma SubjectArgTwoHashes()
    ensures ReadSubjectArg("user:1#a#b") == Err("invalid subject")
  {
    assert "user:1#a#b" == "user:1" + "#a#b";
    CountConcat("user:1", "#a#b", '#');
    assert "#a#b" == "#a" + "#b";
    CountConcat("#a", "#b", '#');
  }

  /** Every accepted subject token holds a `:`. */
  lemma SubjectArgHasColon(arg: string)
    ensures ReadSubjectArg(arg).Ok? ==> ':' in arg
  {
    var r := ReadSubjectArg(arg);
    if r.Ok? {
      var n := |r.value.objectType|;
      assert arg[n] == RefToken(r.value.objectType, r.value.objectId)[n] == ':';
    }
  }

  /** A subject token without `:` (a bare type, with or without a relation) is rejected. */
  lemma SubjectArgNeedsColon(arg: string)
    requires ':' !in arg
    ensures ReadSubjectArg(arg) == Err("invalid subject")
  {
    SubjectArgHasColon(arg);
  }

  /** ReadCheckArgs: 3 or 4 tokens; the subject is read (and its error reported)
      before the object; the relation is copied unchecked; the context is decoded
      only from a fourth token, and a decoding failure is not an error (the
      decoder's result, whatever it holds, is used). */
  function ReadCheckArgs(args: seq<string>, decodeContext: string -> PolicyContext): (r: Result<WarrantCheckParams>)
    ensures |args| < 3 || |args| > 4 ==> r == Err("invalid check: " + FormatArgs(args))
    ensures 3 <= |args| <= 4 && ReadSubjectArg(args[0]).Err? ==> r == Err(ReadSubjectArg(args[0]).msg)
    ensures 3 <= |args| <= 4 && ReadSubjectArg(args[0]).Ok? && ReadObjectArg(args[2]).Err? ==> r == Err(ReadObjectArg(args[2]).msg)
    ensures r.Ok? <==> 3 <= |args| <= 4 && ReadSubjectArg(args[0]).Ok? && ReadObjectArg(args[2]).Ok?
    ensures r.Ok? ==>
      && r.value.check.subject == ReadSubjectArg(args[0]).value
      && r.value.check.relation == args[1]
      && r.value.check.obj == ReadObjectArg(args[2]).value
      && r.value.check.context == (if |args| == 4 then decodeContext(args[3]) else map[])
      && !r.value.debug && r.value.warrantToken == ""
  {
    if |args| < 3 || |args| > 4 then Err("invalid check: " + FormatArgs(args))
    else
      match ReadSubjectArg(args[0])
      case Err(e) => Err(e)
      case Ok(subject) =>
        var relation := args[1];
        match ReadObjectArg(args[2])
        case Err(e) => Err(e)
        case Ok(obj) =>
          var context := if |args| == 4 then decodeContext(args[3]) else map[];
          Ok(WarrantCheckParams(WarrantCheck(obj, relation, subject, context), false, ""))
  }

  /** ReadWarrantArgs: the same token checks as ReadCheckArgs; the policy is the
      fourth token verbatim, or "" with three tokens. */
  function ReadWarrantArgs(args: seq<string>): (r: Result<WarrantParams>)
    ensures |args| < 3 || |args| > 4 ==> r == Err("invalid warrant: " + FormatArgs(args))
    ensures 3 <= |args| <= 4 && ReadSubjectArg(args[0]).Err? ==> r == Err(ReadSubjectArg(args[0]).msg)
    ensures 3 <= |args| <= 4 && ReadSubjectArg(args[0]).Ok? && ReadObjectArg(args[2]).Err? ==> r == Err(ReadObjectArg(args[2]).msg)
    ensures r.Ok? <==> 3 <= |args| <= 4 && ReadSubjectArg(args[0]).Ok? && ReadObjectArg(args[2]).Ok?
    ensures r.Ok? ==>
      && r.value.subject == ReadSubjectArg(args[0]).value
      && r.value.relation == args[1]
      && ObjectRef(r.value.objectType, r.value.objectId) == ReadObjectArg(args[2]).value
      && r.value.policy == (if |args| == 4 then args[3] else "")
  {
    if |args| < 3 || |args| > 4 then Err("invalid warrant: " + FormatArgs(args))
    else
      match ReadSubjectArg(args[0])
      case Err(e) => Err(e)
      case Ok(subject) =>
        var relation := args[1];
        match ReadObjectArg(args[2])
        case Err(e) => Err(e)
        case Ok(obj) =>
          var policy := if |args| == 4 then args[3] else "";
          Ok(WarrantParams(obj.objectType, obj.objectId, relation, subject, policy))
  }

  /** The default-endpoint rule of ReadEnvFromConsole: a blank answer selects the
      hosted service, any other answer is kept. */
  function EndpointOrDefault(answer: string): (endpoint: string)
    ensures endpoint != ""
    ensures answer == "" ==> endpoint == "https://api.warrant.dev"
    ensures answer != "" ==> endpoint == answer
  {
    if answer == "" then "https://api.warrant.dev" else answer
  }
}
