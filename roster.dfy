/**
 * The activity roster behind the sign-up API: a fixed set of named
 * activities, each with a description, a schedule, a capacity and a list of
 * participant emails.  Signing up appends an email to an activity's list;
 * unregistering removes it.  Unknown activities, duplicate sign-ups and
 * removals of absent emails are reported as distinct error kinds.
 *
 * `SignUp` and `Unregister` are the specifications, functions from a roster
 * and a request to an outcome and the roster afterwards; the `RosterStore`
 * class holds the roster as mutable state and its `Join` and `Leave` methods
 * update it in place, proved to agree with the two functions.
 */
module Roster {

  /** One activity record, with the four fields every listed activity carries. */
  datatype Activity = Activity(
    description: string,
    schedule: string,
    maxParticipants: int,
    participants: seq<string>)

  /** The result of a sign-up or unregister request. */
  datatype Outcome = Ok(message: string) | NotFound | AlreadyRegistered | NotRegistered

  /** A request's outcome together with the roster it leaves behind. */
  datatype Step = Step(outcome: Outcome, after: map<string, Activity>)

  /** The nine activities the roster is seeded with. */
  const SeedNames: set<string> := {
    "Soccer Team", "Basketball Club", "Art Club", "Drama Club", "Science Club",
    "Debate Team", "Chess Club", "Programming Class", "Gym Class"
  }

  /** `part` occurs somewhere in `text`. */
  predicate Contains(text: string, part: string)
  {
    exists i :: 0 <= i <= |text| - |part| && part <= text[i..]
  }

  lemma ContainsAt(prefix: string, part: string, suffix: string)
    ensures Contains(prefix + part + suffix, part)
  {
    var text := prefix + part + suffix;
    assert text[|prefix|..] == part + suffix;
  }

  /** The HTTP status a client sees for an outcome. */
  function StatusCode(o: Outcome): (code: int)
    ensures code == 200 <==> o.Ok?
    ensures code == 404 <==> o.NotFound?
    ensures code == 400 <==> o.AlreadyRegistered? || o.NotRegistered?
  {
    match o
    case Ok(_) => 200
    case NotFound => 404
    case AlreadyRegistered => 400
    case NotRegistered => 400
  }

  /** The `detail` text of an error response. */
  function Detail(o: Outcome): (d: string)
    requires !o.Ok?
    ensures o.NotFound? ==> Contains(d, "Activity not found")
    ensures o.NotRegistered? ==> Contains(d, "not registered")
  {
    match o
    case NotFound =>
      var d := "Activity not found";
      assert d <= d[0..];
      d
    case AlreadyRegistered => "Student is already signed up"
    case NotRegistered =>
      var d := "Student is not registered for this activity";
      assert "not registered" <= d[11..];
      d
  }

  /** The confirmation of a sign-up, naming the email and the activity. */
  function SignupMessage(name: string, email: string): (m: string)
    ensures Contains(m, email) && Contains(m, name)
  {
    var m := "Signed up " + email + " for " + name;
    ContainsAt("Signed up ", email, " for " + name);
    assert m == "Signed up " + email + (" for " + name);
    ContainsAt("Signed up " + email + " for ", name, "");
    assert m == "Signed up " + email + " for " + name + "";
    m
  }

  /** The confirmation of a removal, naming the email and the activity. */
  function UnregisterMessage(name: string, email: string): (m: string)
    ensures Contains(m, email) && Contains(m, name)
  {
    var m := "Unregistered " + email + " from " + name;
    ContainsAt("Unregistered ", email, " from " + name);
    assert m == "Unregistered " + email + (" from " + name);
    ContainsAt("Unregistered " + email + " from ", name, "");
    assert m == "Unregistered " + email + " from " + name + "";
    m
  }

  predicate NoDuplicates(s: seq<string>)
  {
    forall i, j :: 0 <= i < j < |s| ==> s[i] != s[j]
  }

  /**
   * The roster invariant: exactly the nine seed activities, and no email
   * listed twice in one activity.
   */
  predicate WellFormed(acts: map<string, Activity>)
  {
    && acts.Keys == SeedNames
    && forall n :: n in acts ==> NoDuplicates(acts[n].participants)
  }

  /**
   * Removes the first occurrence of `e`, keeping the order of the rest
   * (`RemoveFirstKeepsOrder`); exactly one copy of `e` goes
   * (`RemoveFirstMultiset`).
   */
  function RemoveFirst(s: seq<string>, e: string): seq<string>
  {
    if s == [] then []
    else if s[0] == e then s[1..]
    else [s[0]] + RemoveFirst(s[1..], e)
  }

  /** Removal takes exactly one copy of `e` out of the list, if it holds one. */
  lemma {:induction false} RemoveFirstMultiset(s: seq<string>, e: string)
    ensures multiset(RemoveFirst(s, e)) == multiset(s) - multiset{e}
  {
    if s != [] {
      assert s == [s[0]] + s[1..];
      RemoveFirstMultiset(s[1..], e);
    }
  }

  /** The position of the first occurrence of `e`. */
  function FirstIndex(s: seq<string>, e: string): (k: nat)
    requires e in s
    ensures k < |s| && s[k] == e && e !in s[..k]
  {
    if s[0] == e then 0
    else
      var k := FirstIndex(s[1..], e);
      assert s[..k + 1] == [s[0]] + s[1..][..k];
      k + 1
  }

  /** A list without the email is returned as it is. */
  lemma {:induction false} RemoveFirstAbsent(s: seq<string>, e: string)
    requires e !in s
    ensures RemoveFirst(s, e) == s
  {
    if s != [] {
      RemoveFirstAbsent(s[1..], e);
      assert s == [s[0]] + s[1..];
    }
  }

  /** Removal cuts out the first occurrence and keeps the rest in order. */
  lemma {:induction false} RemoveFirstKeepsOrder(s: seq<string>, e: string)
    requires e in s
    ensures RemoveFirst(s, e) == s[..FirstIndex(s, e)] + s[FirstIndex(s, e) + 1..]
  {
    if s[0] == e {
      assert FirstIndex(s, e) == 0;
      assert s[..0] + s[1..] == s[1..];
    } else {
      var t := s[1..];
      assert e in t;
      RemoveFirstKeepsOrder(t, e);
      var k := FirstIndex(t, e);
      assert FirstIndex(s, e) == k + 1;
      assert RemoveFirst(s, e) == [s[0]] + RemoveFirst(t, e);
      ConsSplit(s, k);
    }
  }

  /** Cutting out position `k + 1` of a list is cutting out position `k` of its tail. */
  lemma ConsSplit(s: seq<string>, k: nat)
    requires k + 1 < |s|
    ensures [s[0]] + (s[1..][..k] + s[1..][k + 1..]) == s[..k + 1] + s[k + 2..]
  {
    assert s[..k + 1] == [s[0]] + s[1..][..k];
    assert s[k + 2..] == s[1..][k + 1..];
  }

  /** Removal only drops elements: whatever remains was there before. */
  lemma RemoveFirstSubset(s: seq<string>, e: string, x: string)
    requires x in RemoveFirst(s, e)
    ensures x in s
  {
    RemoveFirstMultiset(s, e);
    assert x in multiset(RemoveFirst(s, e));
    assert x in multiset(s);
  }

  lemma {:induction false} RemoveFirstKeepsDistinct(s: seq<string>, e: string)
    requires NoDuplicates(s)
    ensures NoDuplicates(RemoveFirst(s, e))
    ensures e !in RemoveFirst(s, e)
  {
    if s != [] {
      assert s[0] !in s[1..] by {
        forall k | 0 <= k < |s[1..]| ensures s[1..][k] != s[0] {
          assert s[1..][k] == s[k + 1];
        }
      }
      if s[0] != e {
        var rest := RemoveFirst(s[1..], e);
        RemoveFirstKeepsDistinct(s[1..], e);
        forall x | x in rest ensures x in s[1..] {
          RemoveFirstSubset(s[1..], e, x);
        }
        DistinctCons(s[0], rest);
      }
    }
  }

  lemma DistinctCons(x: string, s: seq<string>)
    requires NoDuplicates(s) && x !in s
    ensures NoDuplicates([x] + s)
  {
    var r := [x] + s;
    forall i, j | 0 <= i < j < |r| ensures r[i] != r[j] {
      if i == 0 {
        assert r[j] == s[j - 1];
      } else {
        assert r[i] == s[i - 1] && r[j] == s[j - 1];
      }
    }
  }

  /** Removing what was just appended gives the list back. */
  lemma {:induction false} RemoveFirstAppended(s: seq<string>, e: string)
    requires e !in s
    ensures RemoveFirst(s + [e], e) == s
  {
    if s == [] {
      assert s + [e] == [e];
    } else {
      assert (s + [e])[0] == s[0];
      assert (s + [e])[1..] == s[1..] + [e];
      RemoveFirstAppended(s[1..], e);
      assert s == [s[0]] + s[1..];
    }
  }

  /** `POST /activities/{name}/signup?email=...` on a roster. */
  function SignUp(acts: map<string, Activity>, name: string, email: string): (r: Step)
    ensures r.outcome.NotFound? <==> name !in acts
    ensures r.outcome.AlreadyRegistered? <==> name in acts && email in acts[name].participants
    ensures !r.outcome.NotRegistered?
    ensures r.outcome.Ok? ==> Contains(r.outcome.message, email)
    ensures !r.outcome.Ok? ==> r.after == acts
    ensures r.after.Keys == acts.Keys
    ensures forall n :: n in acts && n != name ==> r.after[n] == acts[n]
    ensures r.outcome.Ok? ==>
      && email in r.after[name].participants
      && multiset(r.after[name].participants) == multiset(acts[name].participants) + multiset{email}
      && r.after[name].(participants := acts[name].participants) == acts[name]
  {
    if name !in acts then Step(NotFound, acts)
    else
      var a := acts[name];
      if email in a.participants then Step(AlreadyRegistered, acts)
      else
        Step(Ok(SignupMessage(name, email)),
             acts[name := a.(participants := a.participants + [email])])
  }

  /** `DELETE /activities/{name}/unregister?email=...` on a roster. */
  function Unregister(acts: map<string, Activity>, name: string, email: string): (r: Step)
    ensures r.outcome.NotFound? <==> name !in acts
    ensures r.outcome.NotRegistered? <==> name in acts && email !in acts[name].participants
    ensures !r.outcome.AlreadyRegistered?
    ensures r.outcome.Ok? ==> Contains(r.outcome.message, email)
    ensures !r.outcome.Ok? ==> r.after == acts
    ensures r.after.Keys == acts.Keys
    ensures forall n :: n in acts && n != name ==> r.after[n] == acts[n]
    ensures r.outcome.Ok? ==>
      && multiset(r.after[name].participants) == multiset(acts[name].participants) - multiset{email}
      && r.after[name].(participants := acts[name].participants) == acts[name]
  {
    if name !in acts then Step(NotFound, acts)
    else
      var a := acts[name];
      if email !in a.participants then Step(NotRegistered, acts)
      else
        RemoveFirstMultiset(a.participants, email);
        Step(Ok(UnregisterMessage(name, email)),
             acts[name := a.(participants := RemoveFirst(a.participants, email))])
  }

  /** Requests on an activity that does not exist fail with "Activity not found", whatever the email. */
  lemma UnknownActivityNotFound(acts: map<string, Activity>, name: string, email: string)
    requires name !in acts
    ensures SignUp(acts, name, email).outcome == NotFound
    ensures Unregister(acts, name, email).outcome == NotFound
    ensures StatusCode(NotFound) == 404 && Contains(Detail(NotFound), "Activity not found")
  {
  }

  /** Unregistering an email that is not listed fails with 400 "not registered". */
  lemma AbsentEmailNotRegistered(acts: map<string, Activity>, name: string, email: string)
    requires name in acts && email !in acts[name].participants
    ensures Unregister(acts, name, email).outcome == NotRegistered
    ensures StatusCode(NotRegistered) == 400 && Contains(Detail(NotRegistered), "not registered")
  {
  }

  /** Both requests keep the roster invariant. */
  lemma StepsPreserveWellFormed(acts: map<string, Activity>, name: string, email: string)
    requires WellFormed(acts)
    ensures WellFormed(SignUp(acts, name, email).after)
    ensures WellFormed(Unregister(acts, name, email).after)
  {
    if name in acts {
      var p := acts[name].participants;
      if email !in p {
        var q := p + [email];
        forall i, j | 0 <= i < j < |q| ensures q[i] != q[j] {
          if j == |p| {
            assert q[i] == p[i];
          }
        }
        assert SignUp(acts, name, email).after[name].participants == q;
      } else {
        RemoveFirstKeepsDistinct(p, email);
      }
    }
  }

  /** A second sign-up of the same email to the same activity fails with 400. */
  lemma SignUpTwiceRejected(acts: map<string, Activity>, name: string, email: string)
    requires SignUp(acts, name, email).outcome.Ok?
    ensures SignUp(SignUp(acts, name, email).after, name, email).outcome == AlreadyRegistered
    ensures StatusCode(SignUp(SignUp(acts, name, email).after, name, email).outcome) == 400
  {
  }

  /**
   * After a successful sign-up the email is listed; unregistering it then
   * succeeds and restores the roster exactly as it was.
   */
  lemma {:induction false} SignUpThenUnregister(acts: map<string, Activity>, name: string, email: string)
    requires SignUp(acts, name, email).outcome.Ok?
    ensures email in SignUp(acts, name, email).after[name].participants
    ensures Unregister(SignUp(acts, name, email).after, name, email).outcome.Ok?
    ensures Unregister(SignUp(acts, name, email).after, name, email).after == acts
  {
    var p := acts[name].participants;
    RemoveFirstAppended(p, email);
    var mid := SignUp(acts, name, email).after;
    assert mid[name].participants == p + [email];
    assert Unregister(mid, name, email).after == acts;
  }

  /**
   * On a well-formed roster, once an email is unregistered it is no longer
   * listed, and unregistering it again fails with NotRegistered.
   */
  lemma UnregisterRemovesEmail(acts: map<string, Activity>, name: string, email: string)
    requires WellFormed(acts)
    requires Unregister(acts, name, email).outcome.Ok?
    ensures email !in Unregister(acts, name, email).after[name].participants
    ensures Unregister(Unregister(acts, name, email).after, name, email).outcome == NotRegistered
  {
    RemoveFirstKeepsDistinct(acts[name].participants, email);
  }

  /** The roster as the server holds it, updated in place by sign-up and unregister requests. */
  class RosterStore {
    var activities: map<string, Activity>

    ghost predicate Valid()
      reads this
    {
      WellFormed(activities)
    }

    /** A store seeded with the nine activities. */
    constructor (seed: map<string, Activity>)
      requires WellFormed(seed)
      ensures Valid() && activities == seed
    {
      activities := seed;
    }

    /** `GET /activities`: the whole roster, which lists all nine seed activities. */
    method ListActivities() returns (r: map<string, Activity>)
      requires Valid()
      ensures r == activities
      ensures r.Keys == SeedNames
    {
      r := activities;
    }

    /** Signs `email` up for activity `name`. */
    method Join(name: string, email: string) returns (o: Outcome)
      requires Valid()
      modifies this
      ensures Valid()
      ensures Step(o, activities) == SignUp(old(activities), name, email)
      ensures name !in old(activities) ==> o == NotFound && activities == old(activities)
      ensures o.Ok? ==> email in activities[name].participants
    {
      StepsPreserveWellFormed(activities, name, email);
      if name !in activities {
        return NotFound;
      }
      var a := activities[name];
      if email in a.participants {
        return AlreadyRegistered;
      }
      activities := activities[name := a.(participants := a.participants + [email])];
      o := Ok(SignupMessage(name, email));
    }

    /** Removes `email` from activity `name`. */
    method Leave(name: string, email: string) returns (o: Outcome)
      requires Valid()
      modifies this
      ensures Valid()
      ensures Step(o, activities) == Unregister(old(activities), name, email)
      ensures name !in old(activities) ==> o == NotFound && activities == old(activities)
      ensures o.Ok? ==> email !in activities[name].participants
    {
      StepsPreserveWellFormed(activities, name, email);
      if name !in activities {
        return NotFound;
      }
      var a := activities[name];
      if email !in a.participants {
        return NotRegistered;
      }
      UnregisterRemovesEmail(activities, name, email);
      activities := activities[name := a.(participants := RemoveFirst(a.participants, email))];
      o := Ok(UnregisterMessage(name, email));
    }
  }
}
