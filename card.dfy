/**
 * The pure computations of the activity card the front end renders for each
 * listed activity: the availability figure, the choice between a counted
 * participant list and the empty-state paragraph, and the escaped text the
 * card shows.  The markup around these values (tags, classes, whitespace) is
 * not modelled; a card is the record of the values it interpolates.
 */
module ActivityCard {
  import opened HtmlEscape
  import opened Roster

  /**
   * The availability figure: capacity minus listed participants, with no
   * floor at zero.  It is negative exactly when the roster exceeds capacity.
   */
  function SpotsLeft(a: Activity): (r: int)
    ensures r < 0 <==> |a.participants| > a.maxParticipants
    ensures r == 0 <==> |a.participants| == a.maxParticipants
    ensures r <= a.maxParticipants
  {
    a.maxParticipants - |a.participants|
  }

  /** No `<`, `>`, `"` or `'`: the text can neither open a tag nor close an attribute value. */
  predicate Inert(t: string)
  {
    '<' !in t && '>' !in t && '"' !in t && '\'' !in t
  }

  /** One `<li class="participant-item">`: its two data attributes and the visible email. */
  datatype ParticipantItem = ParticipantItem(dataEmail: string, dataActivity: string, shownEmail: string)

  /** The counted list with its title count, or the "no participants" paragraph. */
  datatype ParticipantsSection = ParticipantsList(count: nat, items: seq<ParticipantItem>) | NoParticipants

  /** What one card interpolates into its template. */
  datatype Card = Card(
    heading: string,
    description: string,
    schedule: string,
    spotsLeft: int,
    participants: ParticipantsSection)

  /**
   * An item shows the email it carries, and its data attributes decode back
   * to the email and the activity name; none of them can close an attribute.
   */
  function RenderItem(name: string, email: string): (r: ParticipantItem)
    ensures r.dataEmail == r.shownEmail
    ensures Unescape(r.dataEmail) == email && Unescape(r.dataActivity) == name
    ensures Inert(r.dataEmail) && Inert(r.dataActivity)
  {
    RoundTrip(email);
    RoundTrip(name);
    NoMarkupCharacters(email);
    NoMarkupCharacters(name);
    ParticipantItem(EscapeHtml(email), EscapeHtml(name), EscapeHtml(email))
  }

  /** The participants part of a card: a list when there is anyone, else the empty state. */
  function RenderParticipants(name: string, participants: seq<string>): (r: ParticipantsSection)
    ensures r.NoParticipants? <==> participants == []
    ensures r.ParticipantsList? ==> r.count == |participants| && |r.items| == |participants|
  {
    if |participants| > 0 then
      ParticipantsList(|participants|,
        seq(|participants|, i requires 0 <= i < |participants| => RenderItem(name, participants[i])))
    else
      NoParticipants
  }

  /**
   * The card for one activity: its three texts decode back to the activity
   * name, description and schedule, the figure is the spots left, and the
   * participants part is the empty state exactly for an empty roster.
   */
  function RenderCard(name: string, a: Activity): (r: Card)
    ensures Unescape(r.heading) == name
    ensures Unescape(r.description) == a.description
    ensures Unescape(r.schedule) == a.schedule
    ensures r.spotsLeft + |a.participants| == a.maxParticipants
    ensures r.participants.NoParticipants? <==> a.participants == []
  {
    RoundTrip(name);
    RoundTrip(a.description);
    RoundTrip(a.schedule);
    Card(EscapeHtml(name), EscapeHtml(a.description), EscapeHtml(a.schedule),
         SpotsLeft(a), RenderParticipants(name, a.participants))
  }

  /**
   * Each list item, in roster order, decodes back to its participant and
   * activity name under the five character references.  For values without
   * CR or NUL this is what the remove button's request carries.
   */
  lemma ItemsDecodeToRoster(name: string, participants: seq<string>, i: int)
    requires 0 <= i < |participants|
    ensures RenderParticipants(name, participants).ParticipantsList?
    ensures Unescape(RenderParticipants(name, participants).items[i].dataEmail) == participants[i]
    ensures Unescape(RenderParticipants(name, participants).items[i].shownEmail) == participants[i]
    ensures Unescape(RenderParticipants(name, participants).items[i].dataActivity) == name
  {
  }

  /** Distinct participants get distinct `data-email` attributes. */
  lemma DistinctParticipantsDistinctItems(name: string, participants: seq<string>, i: int, j: int)
    requires 0 <= i < |participants| && 0 <= j < |participants|
    requires participants[i] != participants[j]
    ensures RenderParticipants(name, participants).ParticipantsList?
    ensures RenderParticipants(name, participants).items[i].dataEmail
         != RenderParticipants(name, participants).items[j].dataEmail
  {
  }

  /** No text a card interpolates can open a tag or close an attribute value. */
  lemma CardTextIsInert(name: string, a: Activity)
    ensures Inert(RenderCard(name, a).heading)
    ensures Inert(RenderCard(name, a).description)
    ensures Inert(RenderCard(name, a).schedule)
    ensures RenderCard(name, a).participants.ParticipantsList? ==>
      forall i :: 0 <= i < |RenderCard(name, a).participants.items| ==>
        && Inert(RenderCard(name, a).participants.items[i].dataEmail)
        && Inert(RenderCard(name, a).participants.items[i].dataActivity)
  {
    NoMarkupCharacters(name);
    NoMarkupCharacters(a.description);
    NoMarkupCharacters(a.schedule);
    forall i | 0 <= i < |a.participants| ensures Inert(EscapeHtml(a.participants[i])) {
      NoMarkupCharacters(a.participants[i]);
    }
  }

  /** A successful sign-up takes one spot; a successful unregister gives one back. */
  lemma SpotsFollowRoster(acts: map<string, Activity>, name: string, email: string)
    requires name in acts
    ensures SignUp(acts, name, email).outcome.Ok? ==>
      SpotsLeft(SignUp(acts, name, email).after[name]) == SpotsLeft(acts[name]) - 1
    ensures Unregister(acts, name, email).outcome.Ok? ==>
      SpotsLeft(Unregister(acts, name, email).after[name]) == SpotsLeft(acts[name]) + 1
  {
    var p := acts[name].participants;
    assert |multiset(p)| == |p|;
    assert |multiset(SignUp(acts, name, email).after[name].participants)|
        == |SignUp(acts, name, email).after[name].participants|;
    assert |multiset(Unregister(acts, name, email).after[name].participants)|
        == |Unregister(acts, name, email).after[name].participants|;
    if Unregister(acts, name, email).outcome.Ok? {
      assert email in multiset(p);
    }
  }

  /**
   * Nothing caps sign-ups: a full activity still accepts a new email, and the
   * card then shows a negative number of spots.
   */
  lemma FullActivityStillAccepts(acts: map<string, Activity>, name: string, email: string)
    requires name in acts && email !in acts[name].participants
    requires SpotsLeft(acts[name]) <= 0
    ensures SignUp(acts, name, email).outcome.Ok?
    ensures SpotsLeft(SignUp(acts, name, email).after[name]) < 0
  {
    SpotsFollowRoster(acts, name, email);
  }

  /**
   * After a successful sign-up the re-rendered card lists the new participant:
   * the list is shown, its count is one more than before, and one item
   * decodes to the email.
   */
  lemma SignedUpEmailIsListed(acts: map<string, Activity>, name: string, email: string)
    requires SignUp(acts, name, email).outcome.Ok?
    ensures RenderCard(name, SignUp(acts, name, email).after[name]).participants.ParticipantsList?
    ensures RenderCard(name, SignUp(acts, name, email).after[name]).participants.count
         == |acts[name].participants| + 1
    ensures exists i ::
      (0 <= i < |SignUp(acts, name, email).after[name].participants|
       && Unescape(RenderCard(name, SignUp(acts, name, email).after[name]).participants.items[i].dataEmail) == email)
  {
    var after := SignUp(acts, name, email).after[name].participants;
    SpotsFollowRoster(acts, name, email);
    var i :| 0 <= i < |after| && after[i] == email;
    ItemsDecodeToRoster(name, after, i);
  }
}
