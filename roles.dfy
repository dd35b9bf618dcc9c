/**
 * The role classifier of the login handler: substring tests on the claimed
 * email, evaluated in a fixed order, the first match winning.
 */
module Roles {
  import opened Strings

  datatype Role = Administrator | TeachingAssistant | Student | Teacher

  const AdminMarker: string := "admin"
  const AssistantMarker: string := "csdp"
  const StudentMarker: string := "csd"

  /** The login handler's if/else chain. Administrator claims are trusted; the others need a roster lookup. */
  function Classify(email: string): (r: Role)
    ensures r == Administrator <==> Includes(email, AdminMarker)
    ensures r == Teacher <==> !Includes(email, AdminMarker) && !Includes(email, StudentMarker)
  {
    AssistantMarkerHasStudentMarker(email);
    if Includes(email, AdminMarker) then Administrator
    else if Includes(email, AssistantMarker) then TeachingAssistant
    else if Includes(email, StudentMarker) then Student
    else Teacher
  }

  /** The student marker is a prefix of the assistant marker, so every assistant claim also holds the student marker. */
  lemma AssistantMarkerHasStudentMarker(email: string)
    ensures Includes(email, AssistantMarker) ==> Includes(email, StudentMarker)
  {
    if Includes(email, AssistantMarker) {
      IncludesPrefix(email, AssistantMarker, 3);
      assert AssistantMarker[..3] == StudentMarker;
    }
  }

  /** An ordered list of (marker, role) rules: an independent reading of the classifier. */
  function FirstRule(rules: seq<(string, Role)>, email: string, fallback: Role): (r: Role)
    ensures (forall k :: 0 <= k < |rules| ==> !Includes(email, rules[k].0)) ==> r == fallback
    ensures (exists k :: 0 <= k < |rules| && Includes(email, rules[k].0)) ==>
      exists k :: 0 <= k < |rules| && Includes(email, rules[k].0) && r == rules[k].1 &&
        forall j :: 0 <= j < k ==> !Includes(email, rules[j].0)
  {
    if rules == [] then fallback
    else if Includes(email, rules[0].0) then rules[0].1
    else
      var r := FirstRule(rules[1..], email, fallback);
      assert forall k :: 1 <= k < |rules| ==> rules[k] == rules[1..][k - 1];
      assert (exists k :: 0 <= k < |rules| && Includes(email, rules[k].0)) ==>
        exists k :: 0 <= k < |rules[1..]| && Includes(email, rules[1..][k].0);
      r
  }

  /** The precedence the handler applies. */
  const Rules: seq<(string, Role)> :=
    [(AdminMarker, Administrator), (AssistantMarker, TeachingAssistant), (StudentMarker, Student)]

  /** The classifier is exactly the first matching rule of `Rules`, with Teacher as the fallback. */
  lemma ClassifyIsFirstRule(email: string)
    ensures Classify(email) == FirstRule(Rules, email, Teacher)
  {
    var rest := Rules[1..];
    assert FirstRule(rest[1..][1..], email, Teacher) == Teacher;
    assert FirstRule(rest[1..], email, Teacher) == if Includes(email, StudentMarker) then Student else Teacher;
    assert FirstRule(rest, email, Teacher) == FirstRule(Rules[1..], email, Teacher);
  }

  /**
   * A claim holding the assistant marker (and no administrator marker) is an
   * assistant claim although it also holds the student marker; the reversed
   * rule order would make it a student claim.
   */
  lemma AssistantBeatsStudent(email: string)
    requires Includes(email, AssistantMarker) && !Includes(email, AdminMarker)
    ensures Classify(email) == TeachingAssistant
    ensures Includes(email, StudentMarker)
    ensures FirstRule([(AdminMarker, Administrator), (StudentMarker, Student), (AssistantMarker, TeachingAssistant)], email, Teacher) == Student
  {
    AssistantMarkerHasStudentMarker(email);
  }

  /** A student claim holds the student marker and neither of the other two. */
  lemma StudentClaim(email: string)
    ensures Classify(email) == Student <==>
      Includes(email, StudentMarker) && !Includes(email, AssistantMarker) && !Includes(email, AdminMarker)
  {
  }

  /** The example address "csdp123@example.com" is an assistant claim, and it holds the student marker. */
  lemma AssistantExample()
    ensures Classify("csdp123@example.com") == TeachingAssistant
    ensures Includes("csdp123@example.com", StudentMarker)
  {
    var e := "csdp123@example.com";
    assert OccursAt(e, AssistantMarker, 0);
    assert AdminMarker[4] !in e;
    MissingCharExcludes(e, AdminMarker, 4);
    AssistantMarkerHasStudentMarker(e);
  }
}
