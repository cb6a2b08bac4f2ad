// The records of bot/models.py: users, groups, participants and draws, with
// the group status, the two capability predicates, the save-time rules and
// the join-code generator.

module Domain {
  import opened Text

  /** A calendar day, counted in days; "one day later" is + 1. */
  type Date = int
  /** A moment in time (drawn_at), as an abstract tick count. */
  type Instant = int

  /** Primary keys of the four tables; the store allocates them from a counter. */
  type UserKey = nat
  type GroupId = nat
  type PartId = nat
  type DrawId = nat

  /** Group.STATUS_CHOICES; a new group starts in Active. */
  datatype Status = Active | Drawn | Distribution | Closed

  const DefaultStatus: Status := Active

  /** A status the "status__in=['active', 'drawn', 'distribution']" filters select. */
  predicate IsOpen(s: Status) {
    s == Active || s == Drawn || s == Distribution
  }

  datatype User = User(telegramId: int, username: Option<string>, firstName: Option<string>)

  datatype Group = Group(
    name: string,
    code: string,
    owner: UserKey,
    description: string,
    giftViaBot: bool,
    status: Status,
    drawDate: Option<Date>,
    distributionDate: Option<Date>,
    closeDate: Option<Date>,
    isClosed: bool,
    drawnAt: Option<Instant>)

  datatype Participant = Participant(
    group: GroupId,
    user: UserKey,
    name: string,
    giftMessage: Option<string>,
    giftPhoto: Option<string>,
    giftSent: bool)

  datatype Draw = Draw(group: GroupId, giver: PartId, receiver: PartId)

  /** Group.can_add_participants. */
  predicate CanAddParticipants(g: Group) {
    g.status == Active
  }

  /** Group.can_draw, given the group's participant count. */
  function CanDraw(g: Group, count: nat): (r: bool)
    ensures r ==> CanAddParticipants(g)
    ensures r ==> count >= 2
    ensures !r ==> g.status != Active || count < 2
  {
    g.status == Active && count >= 2
  }

  /** The invariants every saved group satisfies. */
  predicate IsSaved(g: Group) {
    && g.isClosed == (g.status == Closed)
    && (g.distributionDate.Some? ==> g.closeDate.Some?)
  }

  /** Group.save: default the close date to the day after distribution, sync is_closed. */
  function Save(g: Group): (r: Group)
    ensures IsSaved(r)
    ensures r == g.(closeDate := r.closeDate, isClosed := r.isClosed)
    ensures g.closeDate.Some? ==> r.closeDate == g.closeDate
    ensures g.closeDate.None? && g.distributionDate.Some? ==> r.closeDate == Some(g.distributionDate.value + 1)
    ensures g.closeDate.None? && g.distributionDate.None? ==> r.closeDate.None?
  {
    var close := if g.closeDate.None? && g.distributionDate.Some? then Some(g.distributionDate.value + 1) else g.closeDate;
    g.(closeDate := close, isClosed := g.status == Closed)
  }

  /** Saving twice is saving once. */
  lemma SaveIdempotent(g: Group)
    ensures Save(Save(g)) == Save(g)
  {
  }

  /** A saved group is a fixed point of Save. */
  lemma SavedIsFixed(g: Group)
    requires IsSaved(g)
    ensures Save(g) == g
  {
  }

  /** The display name a new participant gets: first name, else username, else "Участник <id>". */
  function DefaultName(u: User): (r: string)
    ensures r != ""
    ensures Truthy(u.firstName) ==> r == u.firstName.value
    ensures !Truthy(u.firstName) && Truthy(u.username) ==> r == u.username.value
    ensures !Truthy(u.firstName) && !Truthy(u.username) ==> r == "Участник " + IntToString(u.telegramId)
  {
    if Truthy(u.firstName) then u.firstName.value
    else if Truthy(u.username) then u.username.value
    else "Участник " + IntToString(u.telegramId)
  }

  function Min(a: int, b: int): int { if a < b then a else b }

  /** One candidate of Group.generate_code: token.upper()[:8]. */
  function CodeOf(token: string): (r: string)
    ensures |r| <= 8
    ensures forall i :: 0 <= i < |r| ==> !IsAsciiLower(r[i])
  {
    UpperHasNoAsciiLower(token);
    Upper(token)[..Min(8, |token|)]
  }

  /**
   * Group.generate_code: draw tokens until one gives a code no group uses.
   * The random tokens are the input; the source loops for as long as it takes,
   * so the caller supplies a stream in which some token is free.
   */
  method GenerateCode(taken: set<string>, tokens: seq<string>) returns (code: string, used: nat)
    requires exists i :: 0 <= i < |tokens| && CodeOf(tokens[i]) !in taken
    ensures used < |tokens| && code == CodeOf(tokens[used])
    ensures code !in taken
    ensures |code| <= 8 && forall i :: 0 <= i < |code| ==> !IsAsciiLower(code[i])
    ensures forall j :: 0 <= j < used ==> CodeOf(tokens[j]) in taken
  {
    var i := 0;
    while true
      invariant 0 <= i < |tokens|
      invariant forall j :: 0 <= j < i ==> CodeOf(tokens[j]) in taken
      invariant exists k :: i <= k < |tokens| && CodeOf(tokens[k]) !in taken
      decreases |tokens| - i
    {
      var candidate := CodeOf(tokens[i]);
      if candidate !in taken {
        return candidate, i;
      }
      i := i + 1;
    }
  }
}
