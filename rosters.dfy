/**
 * The roster lookup of the login handler: `SELECT email FROM <table> WHERE email = :email`,
 * whose first returned record supplies the session email.
 */
module RosterLookup {
  import opened Wrappers

  /** The entry at index `i` is the first one the database considers equal to `email`. */
  ghost predicate FirstMatchAt(roster: seq<string>, email: string, collate: string -> string, i: int) {
    0 <= i < |roster| && collate(roster[i]) == collate(email) &&
    forall j :: 0 <= j < i ==> collate(roster[j]) != collate(email)
  }

  /**
   * The records the query returns, in roster order. `collate` stands for the
   * database's string comparison: two strings compare equal when their
   * collation keys agree (the identity for an exact comparison).
   */
  function Matches(roster: seq<string>, email: string, collate: string -> string): (r: seq<string>)
    ensures |r| <= |roster|
    ensures forall x :: x in r <==> x in roster && collate(x) == collate(email)
    ensures r != [] ==> exists i :: FirstMatchAt(roster, email, collate, i) && roster[i] == r[0]
  {
    if roster == [] then []
    else
      var rest := Matches(roster[1..], email, collate);
      if collate(roster[0]) == collate(email) then
        assert FirstMatchAt(roster, email, collate, 0);
        [roster[0]] + rest
      else
        assert rest != [] ==> exists i :: FirstMatchAt(roster, email, collate, i) && roster[i] == rest[0] by {
          if rest != [] {
            var i :| FirstMatchAt(roster[1..], email, collate, i) && roster[1..][i] == rest[0];
            assert FirstMatchAt(roster, email, collate, i + 1);
          }
        }
        rest
  }

  /** The email of the first returned record, `user[0].email`, or None when the query returns nothing. */
  function FirstMatch(roster: seq<string>, email: string, collate: string -> string): (r: Option<string>)
    ensures r.None? <==> forall j :: 0 <= j < |roster| ==> collate(roster[j]) != collate(email)
    ensures r.Some? ==> exists i :: FirstMatchAt(roster, email, collate, i) && roster[i] == r.value
  {
    var found := Matches(roster, email, collate);
    assert found == [] ==> forall j :: 0 <= j < |roster| ==> collate(roster[j]) != collate(email) by {
      if found == [] {
        forall j | 0 <= j < |roster| ensures collate(roster[j]) != collate(email) {
          assert roster[j] in roster;
        }
      }
    }
    if found == [] then None else Some(found[0])
  }

  /** With an exact comparison, the first match is the claimed email itself. */
  lemma ExactMatchIsClaim(roster: seq<string>, email: string)
    requires email in roster
    ensures FirstMatch(roster, email, s => s) == Some(email)
  {
    var i :| 0 <= i < |roster| && roster[i] == email;
  }
}
