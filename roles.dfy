/** The roles decorator: its arguments are single roles or lists of roles,
    and it stores their one-level flattening under the metadata key "roles". */
module RolesDecorator {

  /** The roles the controllers use. */
  datatype Role = User | StoreAdmin | Admin

  /** The metadata key the decorator writes and the guard reads. */
  const RolesKey: string := "roles"

  /** One argument of the decorator: a role, or a list of roles. */
  datatype RoleArg = One(role: Role) | Many(roles: seq<Role>)

  /** Metadata attached to a route handler or a controller class. */
  type Metadata = map<string, seq<Role>>

  /** What one argument adds to the flattened list. */
  function Contribution(a: RoleArg): seq<Role>
  {
    match a
    case One(r) => [r]
    case Many(rs) => rs
  }

  /** The total number of roles the arguments carry. */
  function Count(args: seq<RoleArg>): nat
  {
    if args == [] then 0 else |Contribution(args[0])| + Count(args[1..])
  }

  /** One-level flattening: a role is in the result exactly when some
      argument contributes it. */
  function Flatten(args: seq<RoleArg>): (r: seq<Role>)
    ensures forall x :: x in r <==> exists i :: 0 <= i < |args| && x in Contribution(args[i])
  {
    if args == [] then []
    else
      var rest := Flatten(args[1..]);
      assert forall i :: 0 <= i < |args[1..]| ==> args[1..][i] == args[i + 1];
      Contribution(args[0]) + rest
  }

  /** The metadata the decorator attaches: the flattened arguments under
      the "roles" key and nothing else. */
  function Roles(args: seq<RoleArg>): (m: Metadata)
    ensures m.Keys == {RolesKey}
    ensures forall x :: x in m[RolesKey] <==> exists i :: 0 <= i < |args| && x in Contribution(args[i])
    ensures m[RolesKey] == Flatten(args)
  {
    map[RolesKey := Flatten(args)]
  }

  /** Flattening keeps the arguments' order: the list for a + b is the list
      for a followed by the list for b. */
  lemma {:induction false} FlattenAppend(a: seq<RoleArg>, b: seq<RoleArg>)
    ensures Flatten(a + b) == Flatten(a) + Flatten(b)
    decreases |a|
  {
    if a == [] {
      assert a + b == b;
    } else {
      assert (a + b)[0] == a[0] && (a + b)[1..] == a[1..] + b;
      FlattenAppend(a[1..], b);
    }
  }

  /** The flattened list is as long as all contributions together. */
  lemma {:induction false} FlattenLength(args: seq<RoleArg>)
    ensures |Flatten(args)| == Count(args)
    decreases |args|
  {
    if args != [] {
      FlattenLength(args[1..]);
    }
  }

  /** Writing a role R as the list [R], in any argument position, stores the
      same list. */
  lemma WrapSingleRole(args: seq<RoleArg>, i: nat)
    requires i < |args| && args[i].One?
    ensures Flatten(args[i := Many([args[i].role])]) == Flatten(args)
  {
    var wrapped := args[i := Many([args[i].role])];
    assert args == args[..i] + [args[i]] + args[i + 1..];
    assert wrapped == args[..i] + [wrapped[i]] + args[i + 1..];
    FlattenAppend(args[..i] + [args[i]], args[i + 1..]);
    FlattenAppend(args[..i], [args[i]]);
    FlattenAppend(args[..i] + [wrapped[i]], args[i + 1..]);
    FlattenAppend(args[..i], [wrapped[i]]);
    assert Flatten([args[i]]) == [args[i].role] == Flatten([wrapped[i]]);
  }
}
