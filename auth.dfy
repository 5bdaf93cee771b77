/**
 * check_access: the session's list of granted permission names, in front of the role lookup in
 * the database. A name already in the list is allowed without a lookup; otherwise the lookup's
 * answer decides, and a positive answer is appended to the list.
 */
module Auth {
  import opened Common

  /** What the role query would answer if asked: the permission_name column, no row, or a PDOException. */
  datatype Lookup = Found(name: string) | Missing | DbError

  /** The outcome of one check: whether the page may be shown, and the session list afterwards. */
  datatype Decision = Decision(allowed: bool, granted: seq<string>)

  /** One call of check_access on the session list `granted`. */
  function Decide(granted: seq<string>, perm: string, lookup: Lookup): (d: Decision)
    ensures perm in granted ==> d == Decision(true, granted)
    ensures perm !in granted ==> (d.allowed <==> lookup.Found? && Truthy(lookup.name))
    ensures d.allowed && perm !in granted ==> d.granted == granted + [lookup.name]
    ensures !d.allowed ==> d.granted == granted
    ensures granted <= d.granted && |d.granted| <= |granted| + 1
  {
    if perm in granted then Decision(true, granted)
    else
      match lookup
      case Found(name) =>
        if Truthy(name) then Decision(true, granted + [name]) else Decision(false, granted)
      case Missing => Decision(false, granted)
      case DbError => Decision(false, granted)
  }

  /** The session's list after a run of checks, each with the answer its lookup would give. */
  function Session(granted: seq<string>, checks: seq<(string, Lookup)>): (after: seq<string>)
    decreases |checks|
  {
    if checks == [] then granted
    else Session(Decide(granted, checks[0].0, checks[0].1).granted, checks[1..])
  }

  /** The list only grows: every earlier entry is kept, in place. */
  lemma {:induction false} SessionGrows(granted: seq<string>, checks: seq<(string, Lookup)>)
    ensures granted <= Session(granted, checks)
    ensures |Session(granted, checks)| <= |granted| + |checks|
    decreases |checks|
  {
    if checks != [] {
      var next := Decide(granted, checks[0].0, checks[0].1).granted;
      SessionGrows(next, checks[1..]);
    }
  }

  /** Once a name is in the list, every later check of it is allowed, whatever the database would say. */
  lemma GrantedStaysAllowed(granted: seq<string>, checks: seq<(string, Lookup)>, perm: string, lookup: Lookup)
    requires perm in granted
    ensures Decide(Session(granted, checks), perm, lookup).allowed
  {
    SessionGrows(granted, checks);
    var after := Session(granted, checks);
    var i :| 0 <= i < |granted| && granted[i] == perm;
    assert after[i] == perm;
  }

  /**
   * The list holds the name the database returns, not the name asked for: when the query matches
   * "Manage_Items" for "manage_items", the list grows but the next check of "manage_items" asks
   * again, and a refusal at that point denies a permission that was just allowed.
   */
  lemma StoredNameNotRequested()
    ensures var d := Decide([], "manage_items", Found("Manage_Items"));
            && d.allowed && d.granted == ["Manage_Items"]
            && !Decide(d.granted, "manage_items", Missing).allowed
  {
    var d := Decide([], "manage_items", Found("Manage_Items"));
    assert "manage_items" != "Manage_Items";
    assert "manage_items" !in d.granted;
  }

  /** A permission named "0" is refused even when the database returns it. */
  lemma FalsyNameRefused(granted: seq<string>)
    requires "0" !in granted
    ensures !Decide(granted, "0", Found("0")).allowed
  {
  }

  /** The session-held list of check_access, updated in place by each call. */
  class PermissionCache {
    var granted: seq<string>

    /** A session starts with no permissions (`$_SESSION['permissions'] ?? []`). */
    constructor ()
      ensures granted == []
    {
      granted := [];
    }

    /** check_access: looks the permission up only when it is not cached; `lookup` is that query's answer. */
    method CheckAccess(perm: string, lookup: Lookup) returns (allowed: bool)
      modifies this
      ensures Decision(allowed, granted) == Decide(old(granted), perm, lookup)
      ensures old(granted) <= granted
    {
      if perm in granted {
        allowed := true;
        return;
      }
      match lookup {
        case Found(name) =>
          if !Truthy(name) {
            allowed := false;
            return;
          }
          granted := granted + [name];
          allowed := true;
        case Missing =>
          allowed := false;
        case DbError =>
          allowed := false;
      }
    }
  }
}
