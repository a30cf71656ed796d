/** internal/cmd/object.go: the `object create|get|update|delete` subcommands,
    up to the SDK call each one selects. cobra has already checked the number of
    arguments, so each function requires it. */
module ObjectCmd {
  import opened Wrappers
  import opened GoStrings
  import opened Reader

  /** Object metadata; the values stand for JSON values, which are not modelled. */
  type Meta = map<string, string>

  /** The SDK call a subcommand selects; nothing is selected on an error. */
  datatype ObjectCall =
    | CreateObject(objectType: string, objectId: string, meta: Option<Meta>)
    | GetObject(objectType: string, objectId: string)
    | UpdateObject(objectType: string, objectId: string, newMeta: Meta)
    | DeleteObject(objectType: string, objectId: string)

  const InvalidCreateObject := "invalid object provided, must be 'type' or 'type:id'"

  /** The looser `type[:id]` grammar of `object create`: a bare type is accepted
      with an empty id, one colon splits exactly as the strict parser does, and
      two or more colons are an error. */
  function ReadCreateObjectArg(arg: string): (r: Result<ObjectRef>)
    ensures r.Ok? <==> Count(arg, ':') <= 1
    ensures r.Err? ==> r.msg == InvalidCreateObject
    ensures ':' !in arg ==> r == Ok(ObjectRef(arg, ""))
    ensures Count(arg, ':') == 1 ==> r == ReadObjectArg(arg)
  {
    var typeAndId := Split(arg, ':');
    if |typeAndId| > 2 then Err(InvalidCreateObject)
    else
      var objectType := typeAndId[0];
      var objectId := if |typeAndId| == 2 then typeAndId[1] else "";
      Ok(ObjectRef(objectType, objectId))
  }

  /** `object create <object> [meta]`: the object token is checked before the
      meta, and the meta is read only when it is given (otherwise it stays nil). */
  function CreateCommand(args: seq<string>, readMeta: string -> Result<Meta>): (r: Result<ObjectCall>)
    requires 1 <= |args| <= 2
    ensures Count(args[0], ':') >= 2 ==> r == Err(InvalidCreateObject)
    ensures r.Ok? <==> Count(args[0], ':') <= 1 && (|args| == 2 ==> readMeta(args[1]).Ok?)
    ensures Count(args[0], ':') <= 1 && |args| == 2 && readMeta(args[1]).Err? ==> r == Err(readMeta(args[1]).msg)
    ensures r.Ok? ==>
      && r.value.CreateObject?
      && ObjectRef(r.value.objectType, r.value.objectId) == ReadCreateObjectArg(args[0]).value
      && r.value.meta == (if |args| == 2 then Some(readMeta(args[1]).value) else None)
  {
    match ReadCreateObjectArg(args[0])
    case Err(e) => Err(e)
    case Ok(obj) =>
      if |args| == 2 then
        match readMeta(args[1])
        case Err(e) => Err(e)
        case Ok(meta) => Ok(CreateObject(obj.objectType, obj.objectId, Some(meta)))
      else
        Ok(CreateObject(obj.objectType, obj.objectId, None))
  }

  /** `object get <object>`: the strict `type:id` grammar. */
  function GetCommand(args: seq<string>): (r: Result<ObjectCall>)
    requires |args| == 1
    ensures r.Ok? <==> ReadObjectArg(args[0]).Ok?
    ensures r.Err? ==> r.msg == "invalid object"
    ensures r.Ok? ==> r.value == GetObject(ReadObjectArg(args[0]).value.objectType, ReadObjectArg(args[0]).value.objectId)
  {
    match ReadObjectArg(args[0])
    case Err(e) => Err(e)
    case Ok(obj) => Ok(GetObject(obj.objectType, obj.objectId))
  }

  /** `object update <object> <meta>`: the object is parsed before the meta, and
      either error stops the command before the update is sent. */
  function UpdateCommand(args: seq<string>, readMeta: string -> Result<Meta>): (r: Result<ObjectCall>)
    requires |args| == 2
    ensures ReadObjectArg(args[0]).Err? ==> r == Err("invalid object")
    ensures ReadObjectArg(args[0]).Ok? && readMeta(args[1]).Err? ==> r == Err(readMeta(args[1]).msg)
    ensures r.Ok? <==> ReadObjectArg(args[0]).Ok? && readMeta(args[1]).Ok?
    ensures r.Ok? ==>
      r.value == UpdateObject(ReadObjectArg(args[0]).value.objectType, ReadObjectArg(args[0]).value.objectId, readMeta(args[1]).value)
  {
    match ReadObjectArg(args[0])
    case Err(e) => Err(e)
    case Ok(obj) =>
      match readMeta(args[1])
      case Err(e) => Err(e)
      case Ok(meta) => Ok(UpdateObject(obj.objectType, obj.objectId, meta))
  }

  /** `object delete <object>`: the strict `type:id` grammar. */
  function DeleteCommand(args: seq<string>): (r: Result<ObjectCall>)
    requires |args| == 1
    ensures r.Ok? <==> ReadObjectArg(args[0]).Ok?
    ensures r.Err? ==> r.msg == "invalid object"
    ensures r.Ok? ==> r.value == DeleteObject(ReadObjectArg(args[0]).value.objectType, ReadObjectArg(args[0]).value.objectId)
  {
    match ReadObjectArg(args[0])
    case Err(e) => Err(e)
    case Ok(obj) => Ok(DeleteObject(obj.objectType, obj.objectId))
  }

  /** A bare type names an object only for `create`: `get`, `update` and
      `delete` reject it. */
  lemma BareTypeOnlyForCreate(objectType: string, meta: string, readMeta: string -> Result<Meta>)
    requires ':' !in objectType
    ensures CreateCommand([objectType], readMeta) == Ok(CreateObject(objectType, "", None))
    ensures GetCommand([objectType]) == Err("invalid object")
    ensures UpdateCommand([objectType, meta], readMeta) == Err("invalid object")
    ensures DeleteCommand([objectType]) == Err("invalid object")
  {
  }

  /** Where both grammars accept a token they agree; the create grammar accepts
      exactly the strict one's tokens plus the bare types. */
  lemma CreateGrammarExtendsStrict(arg: string)
    ensures ReadObjectArg(arg).Ok? ==> ReadCreateObjectArg(arg) == ReadObjectArg(arg)
    ensures ReadCreateObjectArg(arg).Ok? <==> ReadObjectArg(arg).Ok? || ':' !in arg
  {
  }
}
