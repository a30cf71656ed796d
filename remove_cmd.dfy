/** internal/cmd/remove.go: `remove subject relation object` deletes a warrant,
    `remove object removeFrom` undoes one of eight built-in assignments. The
    token parser it calls, reader.ParseObject, is not part of this model and is
    a parameter here. */
module RemoveCmd {
  import opened Wrappers
  import opened Reader

  /** The SDK call `remove` selects. Ids are in argument order: the removed
      object's id first, the id of what it is removed from second. */
  datatype RemoveCall =
    | DeleteWarrant(params: WarrantParams)
    | RemoveUserFromTenant(userId: string, tenantId: string, relation: string)
    | RemoveRoleFromUser(roleId: string, userId: string)
    | RemovePermissionFromRole(permissionId: string, roleId: string)
    | RemovePermissionFromUser(permissionId: string, userId: string)
    | RemoveFeatureFromPricingTier(featureId: string, pricingTierId: string)
    | RemoveFeatureFromUser(featureId: string, userId: string)
    | RemovePricingTierFromTenant(pricingTierId: string, tenantId: string)
    | RemovePricingTierFromUser(pricingTierId: string, userId: string)

  /** The (object type, target type) pairs the two-argument form supports. */
  const RemovablePairs: set<(string, string)> := {
    ("user", "tenant"), ("role", "user"),
    ("permission", "role"), ("permission", "user"),
    ("feature", "pricing-tier"), ("feature", "user"),
    ("pricing-tier", "tenant"), ("pricing-tier", "user")
  }

  /** The pair of object types an association call removes. */
  function CallTypes(call: RemoveCall): (string, string)
    requires !call.DeleteWarrant?
  {
    match call
    case RemoveUserFromTenant(_, _, _) => ("user", "tenant")
    case RemoveRoleFromUser(_, _) => ("role", "user")
    case RemovePermissionFromRole(_, _) => ("permission", "role")
    case RemovePermissionFromUser(_, _) => ("permission", "user")
    case RemoveFeatureFromPricingTier(_, _) => ("feature", "pricing-tier")
    case RemoveFeatureFromUser(_, _) => ("feature", "user")
    case RemovePricingTierFromTenant(_, _) => ("pricing-tier", "tenant")
    case RemovePricingTierFromUser(_, _) => ("pricing-tier", "user")
  }

  /** The ids an association call passes, in the order it passes them. */
  function CallIds(call: RemoveCall): (string, string)
    requires !call.DeleteWarrant?
  {
    match call
    case RemoveUserFromTenant(a, b, _) => (a, b)
    case RemoveRoleFromUser(a, b) => (a, b)
    case RemovePermissionFromRole(a, b) => (a, b)
    case RemovePermissionFromUser(a, b) => (a, b)
    case RemoveFeatureFromPricingTier(a, b) => (a, b)
    case RemoveFeatureFromUser(a, b) => (a, b)
    case RemovePricingTierFromTenant(a, b) => (a, b)
    case RemovePricingTierFromUser(a, b) => (a, b)
  }

  /** The if/else-if chain over type pairs: a supported pair selects the call
      for that pair with the ids unchanged and in order (user-from-tenant always
      with relation "member"); any other pair is "Invalid remove request". */
  function SelectRemoval(obj: ObjectRef, removeFrom: ObjectRef): (r: Result<RemoveCall>)
    ensures r.Ok? <==> (obj.objectType, removeFrom.objectType) in RemovablePairs
    ensures r.Err? ==> r.msg == "Invalid remove request"
    ensures r.Ok? ==> !r.value.DeleteWarrant?
    ensures r.Ok? ==> CallTypes(r.value) == (obj.objectType, removeFrom.objectType)
    ensures r.Ok? ==> CallIds(r.value) == (obj.objectId, removeFrom.objectId)
    ensures r.Ok? && r.value.RemoveUserFromTenant? ==> r.value.relation == "member"
  {
    var (o, t) := (obj.objectType, removeFrom.objectType);
    var (a, b) := (obj.objectId, removeFrom.objectId);
    if o == "user" && t == "tenant" then Ok(RemoveUserFromTenant(a, b, "member"))
    else if o == "role" && t == "user" then Ok(RemoveRoleFromUser(a, b))
    else if o == "permission" && t == "role" then Ok(RemovePermissionFromRole(a, b))
    else if o == "permission" && t == "user" then Ok(RemovePermissionFromUser(a, b))
    else if o == "feature" && t == "pricing-tier" then Ok(RemoveFeatureFromPricingTier(a, b))
    else if o == "feature" && t == "user" then Ok(RemoveFeatureFromUser(a, b))
    else if o == "pricing-tier" && t == "tenant" then Ok(RemovePricingTierFromTenant(a, b))
    else if o == "pricing-tier" && t == "user" then Ok(RemovePricingTierFromUser(a, b))
    else Err("Invalid remove request")
  }

  /** `remove` with its 2 or 3 arguments (cobra's RangeArgs(2, 3)). Three
      arguments build the warrant to delete: subject, relation verbatim, object,
      with no subject relation and no policy. Two arguments parse both tokens
      first, so a parse error wins over an unsupported pair. */
  function RemoveCommand(args: seq<string>, parseObject: string -> Result<ObjectRef>): (r: Result<RemoveCall>)
    requires 2 <= |args| <= 3
    ensures parseObject(args[0]).Err? ==> r == Err(parseObject(args[0]).msg)
    ensures parseObject(args[0]).Ok? && parseObject(args[|args| - 1]).Err? ==> r == Err(parseObject(args[|args| - 1]).msg)
    ensures |args| == 3 ==>
      (r.Ok? <==> parseObject(args[0]).Ok? && parseObject(args[2]).Ok?)
    ensures |args| == 3 && r.Ok? ==>
      var subject := parseObject(args[0]).value;
      var obj := parseObject(args[2]).value;
      r.value == DeleteWarrant(WarrantParams(obj.objectType, obj.objectId, args[1],
                                             SubjectRef(subject.objectType, subject.objectId, ""), ""))
    ensures |args| == 2 ==>
      (r.Ok? <==> parseObject(args[0]).Ok? && parseObject(args[1]).Ok?
                  && (parseObject(args[0]).value.objectType, parseObject(args[1]).value.objectType) in RemovablePairs)
    ensures |args| == 2 && parseObject(args[0]).Ok? && parseObject(args[1]).Ok? ==>
      r == SelectRemoval(parseObject(args[0]).value, parseObject(args[1]).value)
  {
    if |args| == 3 then
      match parseObject(args[0])
      case Err(e) => Err(e)
      case Ok(subject) =>
        var relation := args[1];
        match parseObject(args[2])
        case Err(e) => Err(e)
        case Ok(obj) =>
          Ok(DeleteWarrant(WarrantParams(obj.objectType, obj.objectId, relation,
                                         SubjectRef(subject.objectType, subject.objectId, ""), "")))
    else
      match parseObject(args[0])
      case Err(e) => Err(e)
      case Ok(obj) =>
        match parseObject(args[1])
        case Err(e) => Err(e)
        case Ok(removeFrom) => SelectRemoval(obj, removeFrom)
  }

  /** The table holds exactly eight pairs. */
  lemma RemovablePairsCount()
    ensures |RemovablePairs| == 8
  {
  }

  /** Each supported pair selects its own call: two different pairs never share one. */
  lemma SelectRemovalInjective(o1: ObjectRef, t1: ObjectRef, o2: ObjectRef, t2: ObjectRef)
    requires SelectRemoval(o1, t1).Ok? && SelectRemoval(o2, t2).Ok?
    requires SelectRemoval(o1, t1) == SelectRemoval(o2, t2)
    ensures o1.objectType == o2.objectType && t1.objectType == t2.objectType
    ensures o1.objectId == o2.objectId && t1.objectId == t2.objectId
  {
  }
}
