/** The view logic outside the shopping-list export: the user list seen by
    non-staff callers, and the POST/DELETE actions that subscribe to an
    author, favorite a recipe or put it in the shopping cart. */
module Views {
  import opened Util
  import opened UsersModels
  import opened Common

  /** `CustomUserViewSet.get_queryset`: staff accounts are hidden from the
      `list` action for callers who are not staff themselves. */
  function UserQueryset(users: seq<CustomUser>, action: string, callerIsStaff: bool): (r: seq<CustomUser>)
    ensures action == "list" && !callerIsStaff ==> forall u :: u in r <==> u in users && !u.isStaff
    ensures action != "list" || callerIsStaff ==> r == users
    ensures |r| <= |users|
  {
    if action == "list" && !callerIsStaff then Filter(users, (u: CustomUser) => !u.isStaff) else users
  }

  /** A staff caller lists every account; anyone else, exactly the non-staff ones. */
  lemma ListingDiffersOnlyInStaff(users: seq<CustomUser>, u: CustomUser)
    requires u in users
    ensures u in UserQueryset(users, "list", true)
    ensures u in UserQueryset(users, "list", false) <==> !u.isStaff
  {
  }

  /** The three relation actions share one shape and differ in the table
      and the target field. */
  datatype RelationKind = Subscribe | Favorite | ShoppingCart

  function TargetField(kind: RelationKind): (field: string)
    ensures field != "user"
  {
    match kind
    case Subscribe => "author"
    case Favorite => "recipe"
    case ShoppingCart => "recipe"
  }

  /** The data the POST branch validates and the lookup the DELETE branch
      filters on: the caller's own id as `user`, the path id as the target. */
  function PairFor(kind: RelationKind, caller: Value, target: int): (pair: Row)
    ensures pair.Keys == {"user", TargetField(kind)}
    ensures pair["user"] == caller && pair[TargetField(kind)] == Id(target)
  {
    map["user" := caller, TargetField(kind) := Id(target)]
  }

  /** A row matches the lookup exactly when it links this caller to this target. */
  lemma PairLookup(kind: RelationKind, caller: Value, target: int, row: Row)
    ensures Matches(row, PairFor(kind, caller, target)) <==>
      && "user" in row && row["user"] == caller
      && TargetField(kind) in row && row[TargetField(kind)] == Id(target)
  {
    var pair := PairFor(kind, caller, target);
    if "user" in row && row["user"] == caller && TargetField(kind) in row && row[TargetField(kind)] == Id(target) {
      forall k | k in pair ensures k in row && row[k] == pair[k] {
      }
    }
  }

  /** The columns of each relation table's unique constraint: `unique_follow`
      on the follow table's `user` and `author`, and none on the favorite and
      shopping-list tables. */
  function UniqueKeys(kind: RelationKind): (keys: set<string>)
    ensures keys == {} || keys == PairFor(kind, Null, 0).Keys
  {
    match kind
    case Subscribe => {"user", "author"}
    case Favorite => {}
    case ShoppingCart => {}
  }

  /** The database refuses to save the pair exactly when it is a subscription
      that is already stored for a real (non-`NULL`) caller. */
  lemma RefusedIffRepeatedSubscription(kind: RelationKind, rows: seq<Row>, caller: Value, target: int)
    ensures Refuses(rows, PairFor(kind, caller, target), UniqueKeys(kind)) <==>
      kind == Subscribe && caller.Id? && AnyMatch(rows, PairFor(kind, caller, target))
  {
    var pair := PairFor(kind, caller, target);
    if kind == Subscribe {
      forall x: Row | x in rows ensures Clash(x, pair, UniqueKeys(kind)) <==> caller.Id? && Matches(x, pair) {
        if caller.Id? && Matches(x, pair) {
          forall k: string | k in UniqueKeys(kind) ensures k in x && k in pair && x[k] == pair[k] && x[k].Id? {
            assert k == "user" || k == "author";
          }
        }
        if Clash(x, pair, UniqueKeys(kind)) {
          assert x["user"] == caller;
          forall k: string | k in pair ensures k in x && x[k] == pair[k] {
            assert k in UniqueKeys(kind);
          }
        }
      }
    }
  }

  /** `subscribe`, `favorite` and `shopping_cart`. POST saves the pair when
      the serializer accepts it (201) and answers 400 otherwise; a save the
      follow table's unique constraint refuses raises `IntegrityError` and
      stores nothing. Any other method deletes every matching row (204), or
      answers 400 and changes nothing when there is none. */
  method RelationAction(kind: RelationKind, table: RelationTable, verb: string, caller: Value, target: int,
                        isValid: (seq<Row>, Row) -> bool)
    returns (r: Outcome)
    requires table.uniqueKeys == UniqueKeys(kind)
    modifies table
    ensures var pair := PairFor(kind, caller, target);
      && (verb == "POST" && isValid(old(table.rows), pair) && !Refuses(old(table.rows), pair, UniqueKeys(kind)) ==>
            r == Responded(Created) && table.rows == old(table.rows) + [pair])
      && (verb == "POST" && isValid(old(table.rows), pair) && Refuses(old(table.rows), pair, UniqueKeys(kind)) ==>
            r == IntegrityErrorRaised && table.rows == old(table.rows))
      && (verb == "POST" && !isValid(old(table.rows), pair) ==>
            r == Responded(BadRequest) && table.rows == old(table.rows))
      && (verb != "POST" && old(table.HasMatch(pair)) ==>
            r == Responded(NoContent) && table.rows == Without(old(table.rows), pair))
      && (verb != "POST" && !old(table.HasMatch(pair)) ==>
            r == Responded(BadRequest) && table.rows == old(table.rows))
  {
    var pair := PairFor(kind, caller, target);
    if verb == "POST" {
      if isValid(table.rows, pair) {
        var saved := table.Save(pair);
        if !saved {
          return IntegrityErrorRaised;
        }
        return Responded(Created);
      }
      return Responded(BadRequest);
    }
    if table.HasMatch(pair) {
      table.DeleteMatching(pair);
      return Responded(NoContent);
    }
    return Responded(BadRequest);
  }

  /** Deleting the same relation twice: the first call answers 204, the
      second 400 and leaves the table as the first left it. */
  method DeleteTwice(kind: RelationKind, table: RelationTable, caller: Value, target: int,
                     isValid: (seq<Row>, Row) -> bool)
    returns (first: Outcome, second: Outcome)
    requires table.uniqueKeys == UniqueKeys(kind)
    requires table.HasMatch(PairFor(kind, caller, target))
    modifies table
    ensures first == Responded(NoContent) && second == Responded(BadRequest)
    ensures table.rows == Without(old(table.rows), PairFor(kind, caller, target))
  {
    first := RelationAction(kind, table, "DELETE", caller, target, isValid);
    second := RelationAction(kind, table, "DELETE", caller, target, isValid);
  }

  /** Adding and then removing a relation leaves no row for the pair and
      every other row where it was. The add answers 201, or raises when the
      pair is a subscription already stored; the removal answers 204 either
      way, since the pair is stored after the add. */
  method AddThenRemove(kind: RelationKind, table: RelationTable, caller: Value, target: int,
                       isValid: (seq<Row>, Row) -> bool)
    returns (added: Outcome, removed: Outcome)
    requires table.uniqueKeys == UniqueKeys(kind)
    requires isValid(table.rows, PairFor(kind, caller, target))
    modifies table
    ensures added == if kind == Subscribe && caller.Id? && old(table.HasMatch(PairFor(kind, caller, target)))
      then IntegrityErrorRaised else Responded(Created)
    ensures removed == Responded(NoContent)
    ensures table.rows == Without(old(table.rows), PairFor(kind, caller, target))
  {
    var pair := PairFor(kind, caller, target);
    ghost var before := table.rows;
    RefusedIffRepeatedSubscription(kind, before, caller, target);
    added := RelationAction(kind, table, "POST", caller, target, isValid);
    if added == Responded(Created) {
      assert pair in table.rows && Matches(pair, pair);
      SaveThenDelete(before, pair);
    }
    removed := RelationAction(kind, table, "DELETE", caller, target, isValid);
  }
}
