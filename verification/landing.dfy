/**
 * The first-run wizard: four steps (welcome, congregation, working mode, administrator), the
 * screen each state shows, the events that move between them, and the chain of writes that
 * stores the congregation, the administrator and the administrator's owner role.
 */
module Landing {
  import opened Common
  import opened Records
  import Stepper

  const TOTAL_STEPS := 4

  datatype WorkingMode = Offline | Online

  /** The wizard's signals. */
  datatype Wizard = Wizard(
    step: int,
    congregation: Option<Congregation>,
    mode: Option<WorkingMode>,
    submitting: bool,
    error: Option<string>,
    complete: bool)

  const START := Wizard(1, None, None, false, None, false)

  // ---------------------------------------------------------------- what is shown

  /** The fourth step shows, in this order of precedence: the success card, the spinner, the
      error with its "Go Back" button, or the administrator form. */
  datatype FinalView = SetupComplete | Saving | SaveFailed(message: string) | AccountForm

  datatype Screen = Welcome | CongregationForm | ModeChoice | Final(view: FinalView) | InvalidStep

  function FinalViewOf(w: Wizard): (v: FinalView)
    ensures v == SetupComplete <==> w.complete
    ensures v == Saving <==> !w.complete && w.submitting
    ensures v.SaveFailed? <==> !w.complete && !w.submitting && w.error.Some?
    ensures v.SaveFailed? ==> v.message == w.error.value
    ensures v == AccountForm <==> !w.complete && !w.submitting && w.error.None?
  {
    if w.complete then SetupComplete
    else if w.submitting then Saving
    else match w.error
      case Some(e) => SaveFailed(e)
      case None => AccountForm
  }

  function ScreenOf(w: Wizard): (s: Screen)
    ensures s == InvalidStep <==> !(1 <= w.step <= TOTAL_STEPS)
    ensures s.Final? <==> w.step == TOTAL_STEPS
  {
    match w.step
    case 1 => Welcome
    case 2 => CongregationForm
    case 3 => ModeChoice
    case 4 => Final(FinalViewOf(w))
    case _ => InvalidStep
  }

  // ---------------------------------------------------------------- the save chain

  datatype RoleType =
    | AbsenceViewer | AbsenceEditor
    | FieldServiceReportViewer | FieldServiceReportEditor
    | FieldServiceMeetingViewer | FieldServiceMeetingEditor
    | FieldServiceGroupViewer | FieldServiceGroupEditor
    | MeetingAttendanceViewer | MeetingAttendanceEditor
    | SpecialEventViewer | SpecialEventEditor
    | Owner | Editor | Viewer

  /** A role grant; its dates and notes are always empty here and are not modelled. */
  datatype Role = Role(id: Ref, publisher: Option<Ref>, roleType: RoleType)

  /** The owner role as the wizard builds it: the user's whole `table:local` text is used as the
      local id of both the role's key (after "owner_") and the publisher reference, whose table
      is "user" again. */
  function OwnerRoleAsWritten(userId: Ref): (r: Role)
    ensures r.roleType == Owner && r.id.table == "role" && r.publisher.Some?
    ensures r.publisher.value.table == "user" && r.publisher.value.local == ThingString(userId)
  {
    var text := ThingString(userId);
    Role(Ref("role", "owner_" + text), Some(Ref("user", text)), Owner)
  }

  /** The publisher reference written never points at the user it was built from. */
  lemma OwnerRoleAsWrittenMissesUser(userId: Ref)
    ensures OwnerRoleAsWritten(userId).publisher != Some(userId)
  {
    assert |ThingString(userId)| > |userId.local|;
  }

  /** The text `Thing::to_string()` gives for the administrator created from "a@b.c". */
  lemma EmailThingString()
    ensures ThingString(Ref("user", "a@b.c")) == "user:⟨a@b.c⟩"
  {
    var k := "a@b.c";
    assert k[1] == '@' && !IsIdChar(k[1]);
    assert forall i :: 0 <= i < |k| ==> k[i] != '⟩';
    assert KeyText(k) == ['⟨'] + k + ['⟩'];
    LiteralSteps();
  }

  lemma LiteralSteps()
    ensures ['⟨'] + "a@b.c" + ['⟩'] == "⟨a@b.c⟩"
    ensures "user" + [':'] + "⟨a@b.c⟩" == "user:⟨a@b.c⟩"
    ensures "owner_" + "user:⟨a@b.c⟩" == "owner_user:⟨a@b.c⟩"
  {
  }

  /** The administrator created from "a@b.c" has the id `user:⟨a@b.c⟩`, and the role points at
      the user whose key is that whole text. */
  lemma OwnerRoleAsWrittenExample()
    ensures OwnerRoleAsWritten(Ref("user", "a@b.c")).publisher == Some(Ref("user", "user:⟨a@b.c⟩"))
    ensures OwnerRoleAsWritten(Ref("user", "a@b.c")).id == Ref("role", "owner_user:⟨a@b.c⟩")
  {
    EmailThingString();
    LiteralSteps();
  }

  /** The owner role as evidently intended: the publisher is the created user itself, and the
      role's key is "owner_" followed by the user's local id. */
  function OwnerRole(userId: Ref): (r: Role)
    ensures r.roleType == Owner && r.publisher == Some(userId)
    ensures r.id.table == "role" && |r.id.local| >= 6 && r.id.local[..6] == "owner_" && r.id.local[6..] == userId.local
  {
    Role(Ref("role", "owner_" + userId.local), Some(userId), Owner)
  }

  /** Two users of the same table never share an owner role key. */
  lemma OwnerRoleKeysDistinct(a: Ref, b: Ref)
    requires a.table == b.table && a != b
    ensures OwnerRole(a).id != OwnerRole(b).id
  {
    assert OwnerRole(a).id.local[6..] == a.local && OwnerRole(b).id.local[6..] == b.local;
  }

  /** The end of the chain: the role stored, or the message shown and the tables whose records
      were already stored and stay so (nothing is rolled back). */
  datatype SetupOutcome = Done(role: Role) | Failed(message: string, kept: seq<string>)

  /** The chain of writes started by the administrator form, given the store's replies: the
      congregation's error if any, the created user or an error, the role's error if any; on
      full success the role `roleOf` builds for the created user's id is stored. */
  function SetupChain(congregationError: Option<string>, created: Result<User>, roleError: Option<string>,
                      roleOf: Ref -> Role): (r: SetupOutcome)
    ensures r.Done? <==> congregationError.None? && created.Ok? && created.value.id.Some? && roleError.None?
    ensures r.Done? ==> r.role == roleOf(created.value.id.value)
    ensures congregationError.Some? ==> r == Failed("Failed to create congregation: " + congregationError.value, [])
    ensures r.Failed? && congregationError.None? ==> |r.kept| > 0 && r.kept[0] == "congregation"
    ensures congregationError.None? && created.Err? ==> r == Failed("Failed to create user: " + created.message, ["congregation"])
    ensures congregationError.None? && created.Ok? && created.value.id.None? ==> r == Failed("User created without ID", ["congregation", "user"])
    ensures congregationError.None? && created.Ok? && created.value.id.Some? && roleError.Some? ==>
      r == Failed("User created but failed to assign Owner role: " + roleError.value, ["congregation", "user"])
  {
    match congregationError
    case Some(e) => Failed("Failed to create congregation: " + e, [])
    case None =>
      match created
      case Err(e) => Failed("Failed to create user: " + e, ["congregation"])
      case Ok(user) =>
        match user.id
        case None => Failed("User created without ID", ["congregation", "user"])
        case Some(id) =>
          match roleError
          case Some(e) => Failed("User created but failed to assign Owner role: " + e, ["congregation", "user"])
          case None => Done(roleOf(id))
  }

  /** The chain as written: on full success it stores the owner role built from the user id's
      whole text, which never points at the user just created. */
  function Setup(congregationError: Option<string>, created: Result<User>, roleError: Option<string>)
    : (r: SetupOutcome)
    ensures r.Done? <==> congregationError.None? && created.Ok? && created.value.id.Some? && roleError.None?
    ensures r.Done? ==> r.role.roleType == Owner && r.role.publisher.Some? && r.role.publisher != Some(created.value.id.value)
    ensures r.Done? ==> r.role.publisher.value == Ref("user", ThingString(created.value.id.value))
    ensures congregationError.Some? ==> r == Failed("Failed to create congregation: " + congregationError.value, [])
    ensures r.Failed? && congregationError.None? ==> |r.kept| > 0 && r.kept[0] == "congregation"
    ensures congregationError.None? && created.Err? ==> r == Failed("Failed to create user: " + created.message, ["congregation"])
    ensures congregationError.None? && created.Ok? && created.value.id.None? ==> r == Failed("User created without ID", ["congregation", "user"])
    ensures congregationError.None? && created.Ok? && created.value.id.Some? && roleError.Some? ==>
      r == Failed("User created but failed to assign Owner role: " + roleError.value, ["congregation", "user"])
    ensures r.Done? ==> r.role.id == Ref("role", "owner_" + ThingString(created.value.id.value))
  {
    var r := SetupChain(congregationError, created, roleError, OwnerRoleAsWritten);
    assert r.Done? ==> r.role.publisher != Some(created.value.id.value) by {
      if r.Done? { OwnerRoleAsWrittenMissesUser(created.value.id.value); }
    }
    r
  }

  /** The chain as evidently intended: the stored owner role points at the created user. */
  function SetupIntended(congregationError: Option<string>, created: Result<User>, roleError: Option<string>)
    : (r: SetupOutcome)
    ensures r.Done? <==> congregationError.None? && created.Ok? && created.value.id.Some? && roleError.None?
    ensures r.Done? ==> r.role.roleType == Owner && r.role.publisher == Some(created.value.id.value)
    ensures r.Done? ==> r.role.id == Ref("role", "owner_" + created.value.id.value.local)
  {
    SetupChain(congregationError, created, roleError, OwnerRole)
  }

  /** The two chains succeed and fail together, with the same message and kept writes; on
      success they differ exactly in the role's publisher. */
  lemma SetupDiffersOnlyInRole(congregationError: Option<string>, created: Result<User>, roleError: Option<string>)
    ensures Setup(congregationError, created, roleError).Done? <==> SetupIntended(congregationError, created, roleError).Done?
    ensures Setup(congregationError, created, roleError).Failed? ==>
      Setup(congregationError, created, roleError) == SetupIntended(congregationError, created, roleError)
    ensures Setup(congregationError, created, roleError).Done? ==>
      Setup(congregationError, created, roleError).role.publisher != SetupIntended(congregationError, created, roleError).role.publisher
  {
  }

  // ---------------------------------------------------------------- events

  datatype Event =
    | WelcomeNext
    | CongregationNext(congregation: Congregation)
    | CongregationBack
    | ModeNext(mode: WorkingMode)
    | ModeBack
    | AccountCreated(user: User)
    | AccountBack
    | SetupFinished(outcome: SetupOutcome)
    | GoBack

  /** One event. A button acts only while its screen shows it; the end of the save chain arrives
      whenever it arrives and sets the flags it sets. */
  function Next(w: Wizard, e: Event): (v: Wizard)
    ensures e.SetupFinished? ==> !v.submitting && (v.complete <==> w.complete || e.outcome.Done?)
    ensures e.SetupFinished? && e.outcome.Failed? ==> v.error == Some(e.outcome.message)
    ensures !e.SetupFinished? && v != w ==> e.AccountCreated? || v.step != w.step
  {
    match e
    case WelcomeNext => if ScreenOf(w) == Welcome then w.(step := 2) else w
    case CongregationNext(c) =>
      if ScreenOf(w) == CongregationForm then w.(congregation := Some(c), step := 3) else w
    case CongregationBack => if ScreenOf(w) == CongregationForm then w.(step := 1) else w
    case ModeNext(m) => if ScreenOf(w) == ModeChoice then w.(mode := Some(m), step := 4) else w
    case ModeBack => if ScreenOf(w) == ModeChoice then w.(step := 2) else w
    case AccountCreated(_) => if ScreenOf(w) == Final(AccountForm) then w.(submitting := true) else w
    case AccountBack => if ScreenOf(w) == Final(AccountForm) then w.(step := 3) else w
    case SetupFinished(Done(_)) => w.(submitting := false, complete := true)
    case SetupFinished(Failed(msg, _)) => w.(submitting := false, error := Some(msg))
    case GoBack => if ScreenOf(w).Final? && ScreenOf(w).view.SaveFailed? then w.(error := None, step := 3) else w
  }

  /** What every reachable state satisfies: the step is one of the four, the congregation is
      known from the third step on and the mode on the fourth, and saving only happens there. */
  predicate Consistent(w: Wizard) {
    1 <= w.step <= TOTAL_STEPS
    && (w.step >= 3 ==> w.congregation.Some?)
    && (w.step == 4 ==> w.mode.Some?)
    && (w.submitting ==> w.step == 4)
  }

  /** Every event keeps the wizard consistent. */
  lemma NextKeepsConsistent(w: Wizard, e: Event)
    requires Consistent(w)
    ensures Consistent(Next(w, e))
  {
  }

  function Run(w: Wizard, events: seq<Event>): Wizard
    decreases |events|
  {
    if events == [] then w else Run(Next(w, events[0]), events[1..])
  }

  /** From the start, after any events: "Invalid step" is never shown, and when the
      administrator form is submitted the congregation and the mode it unwraps are there. */
  lemma {:induction false} RunKeepsConsistent(w: Wizard, events: seq<Event>)
    requires Consistent(w)
    ensures var v := Run(w, events);
      Consistent(v) && ScreenOf(v) != InvalidStep
      && (ScreenOf(v) == Final(AccountForm) ==> v.congregation.Some? && v.mode.Some?)
    decreases |events|
  {
    if events != [] {
      NextKeepsConsistent(w, events[0]);
      RunKeepsConsistent(Next(w, events[0]), events[1..]);
    }
  }

  lemma StartConsistent()
    ensures Consistent(START) && ScreenOf(START) == Welcome
  {
  }

  /** "Go Back" after a failed save clears the error and returns to the mode choice, so that
      choosing a mode again shows the administrator form afresh. */
  lemma GoBackThenRetry(w: Wizard, m: WorkingMode)
    requires Consistent(w) && ScreenOf(w).Final? && ScreenOf(w).view.SaveFailed?
    ensures var v := Next(Next(w, GoBack), ModeNext(m));
      ScreenOf(v) == Final(AccountForm) && v.mode == Some(m)
  {
  }

  /** The stepper above the wizard: the current circle is the step shown. */
  lemma StepperShowsStep(w: Wizard)
    requires Consistent(w)
    ensures Stepper.Circles(w.step, TOTAL_STEPS)[w.step - 1] == Stepper.Current
    ensures forall i :: 0 <= i < w.step - 1 ==> Stepper.Circles(w.step, TOTAL_STEPS)[i] == Stepper.Completed
  {
  }
}
