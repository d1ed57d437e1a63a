/**
 The transfer dialog (legacy/web/registration-transfer.tsx) against a server that
 keeps one result per request key and a network that loses, delays and repeats
 requests.
 */
module RegistrationTransfer {
  import opened Wrappers

  type Key = nat

  datatype InvoiceAction = Keep | VoidUnpaid

  /** The answers and acceptances collected by the questionnaire, once it has loaded. */
  datatype Form = Form(
    program: string, team: string, invoiceAction: InvoiceAction,
    reason: string, discount: string, waitlist: bool, values: Option<string>)

  datatype Payload = Payload(requestKey: Key, revision: string, form: Form)

  datatype Outcome = Outcome(status: string, totalCents: Option<int>, dueDate: Option<string>)

  /** What the user reviews, and, as payload and expected outcome, the body of a confirmation. */
  datatype Review = Review(payload: Payload, outcome: Outcome) {
    function Key(): Key { payload.requestKey }
  }

  /** The request a suspended handler is waiting for. */
  datatype Call = Idle | Previewing(payload: Payload) | Confirming(body: Review) | Checking(key: Key)

  /** The state of the dialog; `Idle` is `busy` being false. */
  datatype Dialog = Dialog(
    form: Form, review: Option<Review>, attempted: bool,
    call: Call, error: bool, formRevision: nat, done: bool, closed: bool)

  predicate Open(d: Dialog) {
    !d.closed && !d.done
  }

  // ---- The handlers, as functions of the state

  function Opened(form: Form): Dialog {
    Dialog(form, None, false, Idle, false, 0, false, false)
  }

  predicate CanSubmit(d: Dialog, ready: bool) {
    Open(d) && d.call == Idle && ready && d.form.program != "" && d.form.values.Some?
  }

  /** Confirm what is under review, or ask for a preview under a fresh key. */
  function Submitted(d: Dialog, newKey: Key, revision: string): Dialog {
    if d.review.Some? then
      d.(call := Confirming(d.review.value), attempted := true, error := false)
    else
      d.(call := Previewing(Payload(newKey, revision, d.form)), error := false)
  }

  function Reset(d: Dialog): Dialog {
    d.(review := None, form := d.form.(invoiceAction := Keep, values := None), formRevision := d.formRevision + 1)
  }

  function PreviewArrived(d: Dialog, outcome: Outcome): Dialog
    requires d.call.Previewing?
  {
    d.(call := Idle, review := Some(Review(d.call.payload, outcome)))
  }

  /** The catch clause of a submit; `notSaved` is the flag in the error's details. */
  function SubmitFailed(d: Dialog, notSaved: bool): Dialog {
    (if notSaved then Reset(d).(attempted := false) else d).(call := Idle, error := true)
  }

  function Finished(d: Dialog): Dialog {
    d.(call := Idle, done := true)
  }

  predicate CanCheck(d: Dialog) {
    Open(d) && d.call == Idle && d.attempted && d.error && d.review.Some?
  }

  function CheckStarted(d: Dialog): Dialog
    requires d.review.Some?
  {
    d.(call := Checking(d.review.value.Key()))
  }

  function CheckInconclusive(d: Dialog): Dialog {
    d.(call := Idle, error := true)
  }

  predicate CanEdit(d: Dialog) {
    Open(d) && d.call == Idle && d.review.None?
  }

  /** The fields of the form; choosing a program also clears the error shown. */
  function Edited(d: Dialog, form: Form, clearError: bool): Dialog {
    d.(form := form, error := d.error && !clearError)
  }

  predicate CanEditDetails(d: Dialog) {
    Open(d) && d.call == Idle && d.review.Some? && !d.attempted
  }

  predicate CanRefresh(d: Dialog) {
    Open(d) && d.call == Idle && !d.attempted
  }

  // ---- The dialog itself

  class TransferDialog {
    var form: Form
    var review: Option<Review>
    var attempted: bool
    var call: Call
    var error: bool
    var formRevision: nat
    var done: bool
    var closed: bool

    function View(): Dialog
      reads this
    {
      Dialog(form, review, attempted, call, error, formRevision, done, closed)
    }

    constructor (form: Form)
      ensures View() == Opened(form)
    {
      this.form, review, attempted, call := form, None, false, Idle;
      error, formRevision, done, closed := false, 0, false, false;
    }

    /** Up to the request that is sent; nothing is sent while busy or not ready. */
    method Submit(ready: bool, newKey: Key, revision: string) returns (sent: Call)
      modifies this
      ensures CanSubmit(old(View()), ready) ==> View() == Submitted(old(View()), newKey, revision) && sent == call
      ensures CanSubmit(old(View()), ready) ==>
                !error && sent == (match old(review) case Some(body) => Confirming(body)
                                                     case None => Previewing(Payload(newKey, revision, form)))
                && attempted == (old(review).Some? || old(attempted))
      ensures !CanSubmit(old(View()), ready) ==> View() == old(View()) && sent == Idle
    {
      if closed || done || call != Idle || !ready || form.program == "" || form.values.None? {
        return Idle;
      }
      error := false;
      if review.Some? {
        attempted := true;
        call := Confirming(review.value);
      } else {
        call := Previewing(Payload(newKey, revision, form));
      }
      sent := call;
    }

    method OnPreview(outcome: Outcome)
      requires call.Previewing?
      modifies this
      ensures View() == PreviewArrived(old(View()), outcome)
      ensures call == Idle && review == Some(Review(old(call).payload, outcome)) && attempted == old(attempted)
    {
      review := Some(Review(call.payload, outcome));
      call := Idle;
    }

    method OnSaved()
      modifies this
      ensures View() == Finished(old(View()))
      ensures done && call == Idle
    {
      done := true;
      call := Idle;
    }

    method OnSubmitError(notSaved: bool)
      modifies this
      ensures View() == SubmitFailed(old(View()), notSaved)
      ensures call == Idle && error
      ensures if notSaved then review.None? && !attempted && form.values.None?
              else review == old(review) && attempted == old(attempted) && form == old(form)
    {
      error := true;
      if notSaved {
        attempted, review := false, None;
        form := form.(invoiceAction := Keep, values := None);
        formRevision := formRevision + 1;
      }
      call := Idle;
    }

    method Check() returns (sent: Call)
      requires CanCheck(View())
      modifies this
      ensures View() == CheckStarted(old(View())) && sent == call
      ensures sent == Checking(old(review).value.Key()) && review == old(review) && attempted
    {
      call := Checking(review.value.Key());
      sent := call;
    }

    method OnChecked(completed: bool)
      modifies this
      ensures View() == (if completed then Finished(old(View())) else CheckInconclusive(old(View())))
      ensures call == Idle && (completed ==> done) && (!completed ==> error && done == old(done))
    {
      if completed { done := true; } else { error := true; }
      call := Idle;
    }

    method ChooseProgram(program: string)
      requires CanEdit(View())
      modifies this
      ensures View() == Edited(old(View()), old(form).(program := program, team := "", values := None), true)
    {
      form := form.(program := program, team := "", values := None);
      error := false;
    }

    method ChooseTeam(team: string)
      requires CanEdit(View())
      modifies this
      ensures View() == Edited(old(View()), old(form).(team := team, values := None), false)
    {
      form := form.(team := team, values := None);
    }

    method EditDetails()
      requires CanEditDetails(View())
      modifies this
      ensures View() == old(View()).(review := None)
    {
      review := None;
    }

    method Refresh()
      requires CanRefresh(View())
      modifies this
      ensures View() == Reset(old(View())).(error := false)
      ensures review.None? && formRevision == old(formRevision) + 1 && form == old(form).(invoiceAction := Keep, values := None)
    {
      review := None;
      form := form.(invoiceAction := Keep, values := None);
      formRevision := formRevision + 1;
      error := false;
    }
  }

  // ---- The server and the network

  datatype Reply = Saved | NotSaved | Failed

  /** What the server would do with a key it has no result for. */
  datatype Verdict = Commit | Refuse | Break

  /**
   Which keys a server may commit: told from the transfers it holds, the keys it
   ever refused, and the key asked for.  Any such rule is a server.
   */
  type Rule = (map<Key, Review>, set<Key>, Key) -> bool

  /** Never commits a key it refused. */
  predicate Tombstones(rows: map<Key, Review>, refused: set<Key>, key: Key) {
    key !in refused
  }

  /** legacy/server/registration-lifecycle.mjs: keeps no refusals, but the first transfer cancels its source. */
  predicate SourceCanceled(rows: map<Key, Review>, refused: set<Key>, key: Key) {
    rows == map[]
  }

  predicate Forgetful(rows: map<Key, Review>, refused: set<Key>, key: Key) {
    true
  }

  /** `refused` and `used` are histories; `posted` requests may arrive at any time, any number of times. */
  datatype System = System(
    dialog: Dialog, posted: set<Review>, rows: map<Key, Review>,
    refused: set<Key>, replies: set<(Review, Reply)>, used: set<Key>)

  datatype Step =
    | Submit(ready: bool, newKey: Key, revision: string)
    | PreviewReply(outcome: Outcome)
    | ConfirmReply(reply: Reply)
    | CallFailed(notSavedPreview: bool)
    | StartCheck
    | CheckReply(completed: bool)
    | Edit(form: Form, clearError: bool)
    | EditDetails
    | Refresh
    | Close
    | Serve(body: Review, verdict: Verdict)

  function Start(form: Form): System {
    System(Opened(form), {}, map[], {}, {}, {})
  }

  function Answer(rule: Rule, s: System, body: Review, verdict: Verdict): Reply {
    var key := body.Key();
    if key in s.rows then (if s.rows[key] == body then Saved else Failed)
    else if !rule(s.rows, s.refused, key) then NotSaved
    else
      match verdict
      case Commit => Saved
      case Refuse => NotSaved
      case Break => Failed
  }

  /** A repeated key with another body: the 409 without the `transfer_not_saved` flag. */
  predicate Conflict(s: System, body: Review) {
    body.Key() in s.rows && s.rows[body.Key()] != body
  }

  function Served(rule: Rule, s: System, body: Review, verdict: Verdict): System {
    var key, reply := body.Key(), Answer(rule, s, body, verdict);
    s.(rows := if reply == Saved then s.rows[key := body] else s.rows,
       refused := if reply == NotSaved then s.refused + {key} else s.refused,
       replies := s.replies + {(body, reply)})
  }

  predicate Enabled(s: System, step: Step) {
    var d := s.dialog;
    match step
    case Submit(ready, newKey, _) => CanSubmit(d, ready) && (d.review.None? ==> newKey !in s.used)
    case PreviewReply(_) => Open(d) && d.call.Previewing?
    case ConfirmReply(reply) => Open(d) && d.call.Confirming? && (d.call.body, reply) in s.replies
    case CallFailed(notSavedPreview) => Open(d) && d.call != Idle && (notSavedPreview ==> d.call.Previewing?)
    case StartCheck => CanCheck(d)
    case CheckReply(completed) => Open(d) && d.call.Checking? && (completed ==> d.call.key in s.rows)
    case Edit(_, _) => CanEdit(d)
    case EditDetails => CanEditDetails(d)
    case Refresh => CanRefresh(d)
    case Close => Open(d) && d.call == Idle
    case Serve(body, _) => body in s.posted
  }

  function Apply(rule: Rule, s: System, step: Step): System
    requires Enabled(s, step)
  {
    var d := s.dialog;
    match step
    case Submit(_, newKey, revision) =>
      s.(dialog := Submitted(d, newKey, revision),
         posted := if d.review.Some? then s.posted + {d.review.value} else s.posted,
         used := if d.review.Some? then s.used else s.used + {newKey})
    case PreviewReply(outcome) => s.(dialog := PreviewArrived(d, outcome))
    case ConfirmReply(reply) =>
      s.(dialog := if reply == Saved then Finished(d) else SubmitFailed(d, reply == NotSaved))
    case CallFailed(notSavedPreview) =>
      s.(dialog := if d.call.Checking? then CheckInconclusive(d) else SubmitFailed(d, notSavedPreview))
    case StartCheck => s.(dialog := CheckStarted(d))
    case CheckReply(completed) => s.(dialog := if completed then Finished(d) else CheckInconclusive(d))
    case Edit(form, clearError) => s.(dialog := Edited(d, form, clearError))
    case EditDetails => s.(dialog := d.(review := None))
    case Refresh => s.(dialog := Reset(d).(error := false))
    case Close => s.(dialog := d.(closed := true))
    case Serve(body, verdict) => Served(rule, s, body, verdict)
  }

  /** A run of one dialog, from its opening. */
  ghost predicate Run(rule: Rule, states: seq<System>, steps: seq<Step>) {
    && |states| == |steps| + 1
    && (exists form :: states[0] == Start(form))
    && forall i :: 0 <= i < |steps| ==> Enabled(states[i], steps[i]) && states[i + 1] == Apply(rule, states[i], steps[i])
  }

  // ---- What every step keeps

  /** The confirmation the dialog is committed to. */
  predicate Current(d: Dialog, body: Review) {
    d.attempted && d.review == Some(body)
  }

  ghost predicate DialogInv(s: System) {
    var d := s.dialog;
    && (d.call.Confirming? ==> Current(d, d.call.body) && d.call.body in s.posted)
    && (d.call.Checking? ==> d.attempted && d.review.Some? && d.call.key == d.review.value.Key())
    && (d.call.Previewing? ==> d.review.None? && NewKey(s, d.call.payload.requestKey) && d.call.payload.form == d.form)
    && (d.review.Some? ==> d.review.value.payload.form == d.form)
    && (d.attempted ==> d.review.Some?)
    && (d.review.Some? ==> if d.attempted then d.review.value in s.posted else NewKey(s, d.review.value.Key()))
    && (d.attempted && d.call == Idle && Open(d) ==> d.error)
    && (d.done ==> d.review.Some? && d.review.value.Key() in s.rows)
  }

  /** A key drawn but never sent in a confirmation. */
  ghost predicate NewKey(s: System, key: Key) {
    key in s.used && forall b :: b in s.posted ==> b.Key() != key
  }

  /** A form that can be submitted. */
  predicate Complete(body: Review) {
    body.payload.form.program != "" && body.payload.form.values.Some?
  }

  ghost predicate WireInv(s: System) {
    && (forall b :: b in s.posted ==> b.Key() in s.used && Complete(b))
    && (forall b :: b in s.posted ==> b.Key() in s.refused || Current(s.dialog, b))
    && (forall b, c :: b in s.posted && c in s.posted && b.Key() == c.Key() ==> b == c)
    && (forall k :: k in s.rows ==> s.rows[k] in s.posted && s.rows[k].Key() == k)
    && (forall b :: (b, NotSaved) in s.replies ==> b.Key() in s.refused)
    && (forall b :: (b, Saved) in s.replies ==> b.Key() in s.rows)
  }

  ghost predicate Inv(s: System) {
    DialogInv(s) && WireInv(s)
  }

  lemma ServeKeeps(rule: Rule, s: System, body: Review, verdict: Verdict)
    requires Inv(s) && body in s.posted
    ensures Inv(Served(rule, s, body, verdict))
  {
    ServeKeepsWire(rule, s, body, verdict);
    assert DialogInv(Served(rule, s, body, verdict));
    hide DialogInv, WireInv;
  }

  lemma ServeKeepsWire(rule: Rule, s: System, body: Review, verdict: Verdict)
    requires WireInv(s) && body in s.posted
    ensures WireInv(Served(rule, s, body, verdict))
  {
  }

  lemma SubmitKeeps(rule: Rule, s: System, step: Step)
    requires Inv(s) && step.Submit? && Enabled(s, step)
    ensures Inv(Apply(rule, s, step))
  {
    var d := s.dialog;
    if d.review.Some? {
      var body := d.review.value;
      assert body in Apply(rule, s, step).posted;
      if !d.attempted {
        assert forall b :: b in s.posted ==> b.Key() != body.Key();
      }
    }
  }

  lemma ReplyKeeps(rule: Rule, s: System, step: Step)
    requires Inv(s) && (step.ConfirmReply? || step.CallFailed?) && Enabled(s, step)
    ensures Inv(Apply(rule, s, step))
  {
  }

  lemma QuietStepKeeps(rule: Rule, s: System, step: Step)
    requires Inv(s) && Enabled(s, step)
    requires !step.Submit? && !step.ConfirmReply? && !step.CallFailed? && !step.Serve?
    ensures Inv(Apply(rule, s, step))
  {
  }

  lemma StepKeeps(rule: Rule, s: System, step: Step)
    requires Inv(s) && Enabled(s, step)
    ensures Inv(Apply(rule, s, step))
  {
    hide Inv, Enabled, Apply;
    match step
    case Submit(_, _, _) => SubmitKeeps(rule, s, step);
    case ConfirmReply(_) => ReplyKeeps(rule, s, step);
    case CallFailed(_) => ReplyKeeps(rule, s, step);
    case Serve(body, verdict) => ServeStepKeeps(rule, s, body, verdict);
    case _ => QuietStepKeeps(rule, s, step);
  }

  lemma ServeStepKeeps(rule: Rule, s: System, body: Review, verdict: Verdict)
    requires Inv(s) && Enabled(s, Serve(body, verdict))
    ensures Inv(Apply(rule, s, Serve(body, verdict)))
  {
    hide Inv, Served;
    ServeKeeps(rule, s, body, verdict);
  }

  lemma {:induction false} RunKeeps(rule: Rule, states: seq<System>, steps: seq<Step>, i: nat)
    requires Run(rule, states, steps) && i < |states|
    ensures Inv(states[i])
  {
    hide Enabled, Apply;
    if i > 0 {
      hide Inv;
      RunKeeps(rule, states, steps, i - 1);
      assert states[i - 1 + 1] == Apply(rule, states[i - 1], steps[i - 1]);
      StepKeeps(rule, states[i - 1], steps[i - 1]);
    }
  }

  // ---- Safety over every run

  /** At every moment of every run, all requests sent under one key are the same request, so no server answers a conflict. */
  lemma OneBodyPerKey(rule: Rule, states: seq<System>, steps: seq<Step>, i: nat, body: Review, other: Review)
    requires Run(rule, states, steps) && i < |states|
    requires body in states[i].posted && other in states[i].posted && body.Key() == other.Key()
    ensures body == other && !Conflict(states[i], body)
  {
    RunKeeps(rule, states, steps, i);
  }

  /**
   From one state to a later one without a reset in between: the review stands,
   and the only confirmation that can have been sent is the one under review.
   */
  lemma {:induction false} OnlyTheSameRequest(rule: Rule, states: seq<System>, steps: seq<Step>, i: nat, j: nat)
    requires Run(rule, states, steps) && i <= j < |states|
    requires forall k :: i <= k <= j ==> states[k].dialog.attempted
    ensures states[i].dialog.review.Some? && states[j].dialog.review == states[i].dialog.review
    ensures states[j].posted == states[i].posted && states[i].dialog.review.value in states[i].posted
    ensures states[j].dialog.call.Confirming? ==> states[j].dialog.call.body == states[i].dialog.review.value
  {
    hide Inv, Apply, Enabled;
    RunKeeps(rule, states, steps, i);
    RunKeeps(rule, states, steps, j);
    AttemptedState(rule, states[i]);
    AttemptedState(rule, states[j]);
    if i < j {
      OnlyTheSameRequest(rule, states, steps, i, j - 1);
      RunKeeps(rule, states, steps, j - 1);
      assert states[j - 1 + 1] == Apply(rule, states[j - 1], steps[j - 1]);
      AttemptedStep(rule, states[j - 1], steps[j - 1]);
    }
  }

  lemma AttemptedState(rule: Rule, s: System)
    requires Inv(s) && s.dialog.attempted
    ensures s.dialog.review.Some? && s.dialog.review.value in s.posted
    ensures s.dialog.call.Confirming? ==> s.dialog.call.body == s.dialog.review.value
  {
  }

  lemma AttemptedStep(rule: Rule, s: System, step: Step)
    requires Inv(s) && Enabled(s, step)
    requires s.dialog.attempted && Apply(rule, s, step).dialog.attempted
    ensures Apply(rule, s, step).dialog.review == s.dialog.review
    ensures Apply(rule, s, step).posted == s.posted
  {
    hide WireInv;
    AttemptedState(rule, s);
  }

  /** What is reviewed and confirmed is what the form still holds. */
  lemma ConfirmsTheForm(rule: Rule, states: seq<System>, steps: seq<Step>, i: nat)
    requires Run(rule, states, steps) && i < |states|
    ensures var d := states[i].dialog;
            && (d.review.Some? ==> d.review.value.payload.form == d.form)
            && (d.call.Confirming? ==> d.review == Some(d.call.body) && d.call.body.payload.form == d.form)
  {
    RunKeeps(rule, states, steps, i);
  }

  predicate IsControl(step: Step) {
    step.Submit? || step.StartCheck? || step.Edit? || step.EditDetails? || step.Refresh? || step.Close?
  }

  /**
   What the user can do when.  While a request is under way no control works, and
   only then an answer comes in.  An attempt can only be confirmed again, checked
   or closed; a review not yet attempted can be left, but its form is not shown.
   */
  lemma ControlsExact(rule: Rule, states: seq<System>, steps: seq<Step>, i: nat)
    requires Run(rule, states, steps) && i < |steps| && !steps[i].Serve?
    ensures var d, step := states[i].dialog, steps[i];
            && !d.closed && !d.done
            && (IsControl(step) <==> d.call == Idle)
            && (d.attempted && IsControl(step) ==> step.Submit? || step.StartCheck? || step.Close?)
            && (step.StartCheck? ==> d.attempted && d.error && d.review.Some?)
            && (step.Edit? ==> d.review.None?)
            && (step.EditDetails? ==> d.review.Some?)
            && (step.Refresh? ==> !states[i + 1].dialog.error && states[i + 1].dialog.review.None?)
            && (step.Close? ==> states[i + 1].dialog.closed)
  {
    RunKeeps(rule, states, steps, i);
  }

  /** A closed dialog, or one that has reported success, stays as it is; only requests already sent can still arrive. */
  lemma {:induction false} OverIsOver(rule: Rule, states: seq<System>, steps: seq<Step>, i: nat, j: nat)
    requires Run(rule, states, steps) && i <= j < |states| && !Open(states[i].dialog)
    ensures states[j].dialog == states[i].dialog
    ensures j < |steps| ==> steps[j].Serve?
  {
    if i < j {
      OverIsOver(rule, states, steps, i, j - 1);
      assert states[j - 1 + 1] == Apply(rule, states[j - 1], steps[j - 1]);
    }
  }

  /**
   After "not saved" nothing can be sent before the answers are given again, in a
   questionnaire mounted anew; the rest of the form stays.  Every key ever sent
   counts as used.
   */
  lemma StartsOver(rule: Rule, states: seq<System>, steps: seq<Step>, i: nat, ready: bool)
    requires Run(rule, states, steps) && i + 1 < |states| && steps[i] == ConfirmReply(NotSaved)
    ensures var before, d := states[i].dialog, states[i + 1].dialog;
            && d.review.None? && !d.attempted && d.error && d.call == Idle && !CanSubmit(d, ready)
            && d.form == before.form.(invoiceAction := Keep, values := None)
            && d.formRevision == before.formRevision + 1
    ensures forall body :: body in states[i + 1].posted ==> body.Key() in states[i + 1].used
  {
    RunKeeps(rule, states, steps, i + 1);
    assert states[i + 1] == Apply(rule, states[i], steps[i]);
  }

  /** Only the server's word that the request under review was not saved ends an attempt. */
  lemma AttemptEnds(rule: Rule, states: seq<System>, steps: seq<Step>, i: nat)
    requires Run(rule, states, steps) && i + 1 < |states|
    requires states[i].dialog.attempted && !states[i + 1].dialog.attempted
    ensures steps[i] == ConfirmReply(NotSaved)
    ensures states[i].dialog.review.Some? && (states[i].dialog.review.value, NotSaved) in states[i].replies
  {
    RunKeeps(rule, states, steps, i);
  }

  /**
   A dialog that reports success has the transfer it showed: the server holds
   that very payload under that key, with the reviewed outcome.
   */
  lemma DoneMeansCommitted(rule: Rule, states: seq<System>, steps: seq<Step>, i: nat)
    requires Run(rule, states, steps) && i < |states| && states[i].dialog.done
    ensures var review := states[i].dialog.review;
            review.Some? && review.value.Key() in states[i].rows && states[i].rows[review.value.Key()] == review.value
  {
    RunKeeps(rule, states, steps, i);
    var s := states[i];
    var key := s.dialog.review.value.Key();
    assert s.rows[key] in s.posted && s.rows[key].Key() == key;
  }

  /** An attempt whose transfer did commit can always be settled: checking and its answer report success. */
  lemma UncertainCanBeSettled(rule: Rule, states: seq<System>, steps: seq<Step>, i: nat)
    requires Run(rule, states, steps) && i < |states|
    requires var d := states[i].dialog;
             Open(d) && d.call == Idle && d.attempted && d.review.Some? && d.review.value.Key() in states[i].rows
    ensures Enabled(states[i], StartCheck)
    ensures var checking := Apply(rule, states[i], StartCheck);
            && Enabled(checking, CheckReply(true))
            && Apply(rule, checking, CheckReply(true)).dialog.done
  {
    RunKeeps(rule, states, steps, i);
  }

  // ---- Which servers make a dialog safe

  lemma Extend(rule: Rule, states: seq<System>, steps: seq<Step>, step: Step) returns (states': seq<System>, steps': seq<Step>)
    requires Run(rule, states, steps) && Enabled(states[|steps|], step)
    ensures Run(rule, states', steps') && |steps'| == |steps| + 1
    ensures states'[|steps'|] == Apply(rule, states[|steps|], step)
  {
    hide Enabled, Apply;
    states', steps' := states + [Apply(rule, states[|steps|], step)], steps + [step];
  }

  const FILLED := Form("spring", "", Keep, "moved", "", false, Some("answers"))

  /** A request under the given key. */
  function Filler(key: Key): Review {
    Review(Payload(key, "r", FILLED), Outcome("Confirmed", Some(5000), None))
  }

  /** Nothing is reviewed or under way, so a new transfer can be entered. */
  predicate Fresh(d: Dialog) {
    Open(d) && d.call == Idle && d.review.None? && !d.attempted
  }

  /** Fill in the form, preview it and confirm it. */
  lemma Send(rule: Rule, states: seq<System>, steps: seq<Step>, body: Review) returns (states': seq<System>, steps': seq<Step>)
    requires Run(rule, states, steps)
    requires var s := states[|steps|]; Fresh(s.dialog) && body.Key() !in s.used && Complete(body)
    ensures Run(rule, states', steps')
    ensures var s, s' := states[|steps|], states'[|steps'|];
            && s' == s.(dialog := s'.dialog, posted := s.posted + {body}, used := s.used + {body.Key()})
            && Open(s'.dialog) && s'.dialog.call == Confirming(body) && s'.dialog.attempted
  {
    states', steps' := Extend(rule, states, steps, Edit(body.payload.form, false));
    states', steps' := Extend(rule, states', steps', Submit(true, body.Key(), body.payload.revision));
    states', steps' := Extend(rule, states', steps', PreviewReply(body.outcome));
    states', steps' := Extend(rule, states', steps', Submit(true, body.Key(), ""));
  }

  /** Such a request refused, after which the dialog starts over. */
  lemma RefuseOne(rule: Rule, states: seq<System>, steps: seq<Step>, body: Review) returns (states': seq<System>, steps': seq<Step>)
    requires Run(rule, states, steps)
    requires var s := states[|steps|];
             Fresh(s.dialog) && body.Key() !in s.used && body.Key() !in s.rows && Complete(body)
    ensures Run(rule, states', steps')
    ensures var s, s' := states[|steps|], states'[|steps'|];
            && s' == s.(dialog := s'.dialog, posted := s.posted + {body}, used := s.used + {body.Key()},
                        refused := s.refused + {body.Key()}, replies := s.replies + {(body, NotSaved)})
            && Fresh(s'.dialog)
  {
    states', steps' := Send(rule, states, steps, body);
    states', steps' := Extend(rule, states', steps', Serve(body, Refuse));
    states', steps' := Extend(rule, states', steps', ConfirmReply(NotSaved));
  }

  function BodyFor(key: Key, special: Review): Review {
    if key == special.Key() then special else Filler(key)
  }

  /** One request after the other is refused, `special` among them if its key is. */
  lemma {:induction false} RefuseAll(rule: Rule, states: seq<System>, steps: seq<Step>, keys: set<Key>, special: Review)
    returns (states': seq<System>, steps': seq<Step>)
    requires Run(rule, states, steps) && Complete(special)
    requires var s := states[|steps|]; Fresh(s.dialog) && keys !! s.used && keys !! s.rows.Keys
    ensures Run(rule, states', steps')
    ensures var s, s' := states[|steps|], states'[|steps'|];
            && Fresh(s'.dialog) && s'.rows == s.rows
            && s'.refused == s.refused + keys && s'.used == s.used + keys
            && s.posted <= s'.posted && s.replies <= s'.replies
            && forall k :: k in keys ==> BodyFor(k, special) in s'.posted && (BodyFor(k, special), NotSaved) in s'.replies
    decreases keys
  {
    hide Run, Fresh, Complete;
    states', steps' := states, steps;
    if keys != {} {
      var k :| k in keys;
      FillerComplete(k);
      states', steps' := RefuseOne(rule, states, steps, BodyFor(k, special));
      states', steps' := RefuseAll(rule, states', steps', keys - {k}, special);
      assert keys == {k} + (keys - {k});
    }
  }

  lemma FillerComplete(key: Key)
    ensures Complete(Filler(key)) && Filler(key).Key() == key
  {
  }

  lemma Commits(rule: Rule, states: seq<System>, steps: seq<Step>, body: Review) returns (states': seq<System>, steps': seq<Step>)
    requires Run(rule, states, steps)
    requires var s := states[|steps|];
             body in s.posted && body.Key() !in s.rows && rule(s.rows, s.refused, body.Key())
    ensures Run(rule, states', steps')
    ensures var s := states[|steps|];
            states'[|steps'|] == s.(rows := s.rows[body.Key() := body], replies := s.replies + {(body, Saved)})
  {
    states', steps' := Extend(rule, states, steps, Serve(body, Commit));
  }

  // ---- At most one transfer

  /**
   Two commits of one dialog: `body` when the keys of `before` had been refused,
   then `other` when those of `refused` had been.  A dialog goes on to another key
   only after a refusal, so either `body` had been refused before it was committed,
   or `other` had been, and nothing was refused between the two.
   */
  ghost predicate CommitsTwo(rule: Rule, body: Review, before: set<Key>, refused: set<Key>, other: Key) {
    && Complete(body) && other != body.Key() && before <= refused
    && rule(map[], before, body.Key()) && rule(map[body.Key() := body], refused, other)
    && (body.Key() in before || (refused == before && other in before))
  }

  ghost predicate CommitsOne(rule: Rule) {
    forall body, before, refused, other :: !CommitsTwo(rule, body, before, refused, other)
  }

  /** The one row, and the keys refused before it was committed; if it was not among them, nothing was refused since. */
  ghost predicate OneRow(rule: Rule, s: System, body: Review, before: set<Key>) {
    && s.rows == map[body.Key() := body] && Complete(body)
    && before <= s.refused && rule(map[], before, body.Key())
    && (body.Key() !in before ==> body.Key() !in s.refused && before == s.refused)
  }

  ghost predicate RowInv(rule: Rule, s: System) {
    s.rows == map[] || exists body, before :: OneRow(rule, s, body, before)
  }

  lemma ServeKeepsRow(rule: Rule, s: System, body: Review, verdict: Verdict)
    requires Inv(s) && RowInv(rule, s) && CommitsOne(rule) && body in s.posted
    ensures RowInv(rule, Served(rule, s, body, verdict))
  {
    hide DialogInv, CommitsOne;
    var s' := Served(rule, s, body, verdict);
    if s.rows == map[] {
      if s'.rows != map[] {
        assert s'.rows == map[body.Key() := body];
        assert OneRow(rule, s', body, s.refused);
      }
    } else {
      var row, before :| OneRow(rule, s, row, before);
      assert s.rows[row.Key()] == row && row in s.posted;
      if row.Key() != body.Key() {
        NoSecond(rule, row, before, s.refused, body.Key());
        assert body.Key() in s.refused || Current(s.dialog, body);
        assert row.Key() in s.refused || Current(s.dialog, row);
      }
      assert OneRow(rule, s', row, before);
    }
  }

  lemma NoSecond(rule: Rule, body: Review, before: set<Key>, refused: set<Key>, other: Key)
    requires CommitsOne(rule)
    ensures !CommitsTwo(rule, body, before, refused, other)
  {
  }

  lemma StepKeepsRow(rule: Rule, s: System, step: Step)
    requires Inv(s) && RowInv(rule, s) && CommitsOne(rule) && Enabled(s, step)
    ensures RowInv(rule, Apply(rule, s, step))
  {
    hide Inv, CommitsOne;
    if step.Serve? {
      ServeKeepsRow(rule, s, step.body, step.verdict);
    } else {
      SameRows(rule, s, step);
      var s' := Apply(rule, s, step);
      hide Apply, Enabled;
      if s.rows != map[] {
        var row, before :| OneRow(rule, s, row, before);
        assert OneRow(rule, s', row, before);
      }
    }
  }

  lemma SameRows(rule: Rule, s: System, step: Step)
    requires Enabled(s, step) && !step.Serve?
    ensures Apply(rule, s, step).rows == s.rows && Apply(rule, s, step).refused == s.refused
  {
  }

  lemma {:induction false} RunKeepsRow(rule: Rule, states: seq<System>, steps: seq<Step>, i: nat)
    requires Run(rule, states, steps) && i < |states| && CommitsOne(rule)
    ensures RowInv(rule, states[i])
  {
    hide Enabled, Apply, CommitsOne;
    if i > 0 {
      hide Inv, RowInv;
      RunKeepsRow(rule, states, steps, i - 1);
      RunKeeps(rule, states, steps, i - 1);
      assert states[i - 1 + 1] == Apply(rule, states[i - 1], steps[i - 1]);
      StepKeepsRow(rule, states[i - 1], steps[i - 1]);
    }
  }

  ghost predicate CommitsOnce(states: seq<System>) {
    forall i :: 0 <= i < |states| ==> |states[i].rows| <= 1
  }

  lemma AtMostOneTransfer(rule: Rule, states: seq<System>, steps: seq<Step>)
    requires Run(rule, states, steps) && CommitsOne(rule)
    ensures CommitsOnce(states)
  {
    hide Run, CommitsOne;
    forall i | 0 <= i < |states|
      ensures |states[i].rows| <= 1
    {
      RunKeepsRow(rule, states, steps, i);
    }
  }

  /** The run in which a server that may commit two does so. */
  lemma TwoTransfers(rule: Rule, body: Review, before: set<Key>, refused: set<Key>, other: Key)
    returns (states: seq<System>, steps: seq<Step>)
    requires CommitsTwo(rule, body, before, refused, other)
    ensures Run(rule, states, steps) && |states[|steps|].rows| == 2
  {
    states, steps := StartedRun(rule);
    states, steps := RefuseAll(rule, states, steps, before, body);
    assert states[|steps|].refused == before;
    if body.Key() in before {
      assert BodyFor(body.Key(), body) == body;
      states, steps := Commits(rule, states, steps, body);
      states, steps := RefuseAll(rule, states, steps, refused - before, body);
      assert states[|steps|].refused == refused;
      if other !in refused {
        states, steps := Send(rule, states, steps, Filler(other));
      } else {
        assert BodyFor(other, body) == Filler(other);
      }
    } else {
      states, steps := Send(rule, states, steps, body);
      states, steps := Commits(rule, states, steps, body);
      assert BodyFor(other, body) == Filler(other);
    }
    states, steps := Commits(rule, states, steps, Filler(other));
    assert states[|steps|].rows.Keys == {body.Key(), other};
  }

  lemma StartedRun(rule: Rule) returns (states: seq<System>, steps: seq<Step>)
    ensures Run(rule, states, steps) && |steps| == 0 && states == [Start(FILLED)]
  {
    states, steps := [Start(FILLED)], [];
    assert states[0] == Start(FILLED);
  }

  /** A dialog commits at most one transfer in every run exactly when the server's rule never lets it commit two. */
  lemma AtMostOneExactly(rule: Rule)
    ensures (forall states: seq<System>, steps: seq<Step> :: Run(rule, states, steps) ==> CommitsOnce(states))
       <==> CommitsOne(rule)
  {
    hide Run, CommitsTwo;
    if CommitsOne(rule) {
      forall states: seq<System>, steps: seq<Step> | Run(rule, states, steps)
        ensures CommitsOnce(states)
      {
        AtMostOneTransfer(rule, states, steps);
      }
    } else {
      var body, before, refused, other :| CommitsTwo(rule, body, before, refused, other);
      var states, steps := TwoTransfers(rule, body, before, refused, other);
      assert |states| > |steps| by { RunLength(rule, states, steps); }
      assert !CommitsOnce(states);
    }
  }

  lemma RunLength(rule: Rule, states: seq<System>, steps: seq<Step>)
    requires Run(rule, states, steps)
    ensures |states| == |steps| + 1
  {
  }

  // ---- "Not saved" stands

  /** The server commits a key it refused: as its first transfer, or after one it had not refused. */
  ghost predicate GoesBack(rule: Rule, refused: set<Key>, key: Key, body: Review) {
    && key in refused
    && (rule(map[], refused, key)
        || (Complete(body) && body.Key() !in refused
            && rule(map[], refused, body.Key()) && rule(map[body.Key() := body], refused, key)))
  }

  ghost predicate StandsBy(rule: Rule) {
    forall refused, key, body :: !GoesBack(rule, refused, key, body)
  }

  ghost predicate StandInv(rule: Rule, s: System) {
    && s.refused !! s.rows.Keys
    && (s.rows == map[]
        || exists body: Review :: s.rows == map[body.Key() := body] && Complete(body) && rule(map[], s.refused, body.Key()))
  }

  lemma ServeKeepsStand(rule: Rule, s: System, body: Review, verdict: Verdict)
    requires Inv(s) && StandInv(rule, s) && StandsBy(rule) && body in s.posted
    ensures StandInv(rule, Served(rule, s, body, verdict))
  {
    hide DialogInv, StandsBy;
    var s' := Served(rule, s, body, verdict);
    if s.rows == map[] {
      NeverBack(rule, s.refused, body.Key(), body);
      if s'.rows != map[] {
        assert s'.rows == map[body.Key() := body];
      }
    } else {
      var row: Review :| s.rows == map[row.Key() := row] && Complete(row) && rule(map[], s.refused, row.Key());
      NeverBack(rule, s.refused, body.Key(), row);
      assert s.rows[row.Key()] == row && row in s.posted;
      assert row.Key() !in s.refused && Current(s.dialog, row);
      assert body.Key() in s.refused || Current(s.dialog, body);
      assert s'.rows == s.rows && s'.refused == s.refused;
    }
  }

  lemma NeverBack(rule: Rule, refused: set<Key>, key: Key, body: Review)
    requires StandsBy(rule)
    ensures !GoesBack(rule, refused, key, body)
  {
  }

  lemma StepKeepsStand(rule: Rule, s: System, step: Step)
    requires Inv(s) && StandInv(rule, s) && StandsBy(rule) && Enabled(s, step)
    ensures StandInv(rule, Apply(rule, s, step))
  {
    hide Inv, StandsBy;
    if step.Serve? {
      hide StandInv, Served;
      ServeKeepsStand(rule, s, step.body, step.verdict);
    } else {
      SameRows(rule, s, step);
      hide Apply, Enabled;
    }
  }

  lemma {:induction false} RunKeepsStand(rule: Rule, states: seq<System>, steps: seq<Step>, i: nat)
    requires Run(rule, states, steps) && i < |states| && StandsBy(rule)
    ensures StandInv(rule, states[i])
  {
    hide Enabled, Apply, StandsBy;
    if i > 0 {
      hide Inv, StandInv;
      RunKeepsStand(rule, states, steps, i - 1);
      RunKeeps(rule, states, steps, i - 1);
      assert states[i - 1 + 1] == Apply(rule, states[i - 1], steps[i - 1]);
      StepKeepsStand(rule, states[i - 1], steps[i - 1]);
    }
  }

  /** No key the server once reported as not saved is ever committed. */
  ghost predicate RefusalsStand(states: seq<System>) {
    forall i, body :: 0 <= i < |states| && (body, NotSaved) in states[i].replies ==> body.Key() !in states[i].rows
  }

  lemma NotSavedStands(rule: Rule, states: seq<System>, steps: seq<Step>)
    requires Run(rule, states, steps) && StandsBy(rule)
    ensures RefusalsStand(states)
  {
    hide Run, StandsBy;
    forall i, body | 0 <= i < |states| && (body, NotSaved) in states[i].replies
      ensures body.Key() !in states[i].rows
    {
      RunKeeps(rule, states, steps, i);
      RunKeepsStand(rule, states, steps, i);
    }
  }

  /** The run in which a server that goes back on a refusal does so. */
  lemma RefusalForgotten(rule: Rule, refused: set<Key>, key: Key, body: Review) returns (states: seq<System>, steps: seq<Step>)
    requires GoesBack(rule, refused, key, body)
    ensures Run(rule, states, steps)
    ensures (Filler(key), NotSaved) in states[|steps|].replies && key in states[|steps|].rows
  {
    states, steps := StartedRun(rule);
    states, steps := RefuseAll(rule, states, steps, refused, Filler(key));
    assert states[|steps|].refused == refused;
    assert BodyFor(key, Filler(key)) == Filler(key);
    if !rule(map[], refused, key) {
      states, steps := Send(rule, states, steps, body);
      states, steps := Commits(rule, states, steps, body);
    }
    states, steps := Commits(rule, states, steps, Filler(key));
  }

  /** "Not saved" stands in every run exactly when the server's rule never lets it go back on a refusal. */
  lemma NotSavedStandsExactly(rule: Rule)
    ensures (forall states: seq<System>, steps: seq<Step> :: Run(rule, states, steps) ==> RefusalsStand(states))
       <==> StandsBy(rule)
  {
    hide Run, GoesBack;
    if StandsBy(rule) {
      forall states: seq<System>, steps: seq<Step> | Run(rule, states, steps)
        ensures RefusalsStand(states)
      {
        NotSavedStands(rule, states, steps);
      }
    } else {
      var refused, key, body :| GoesBack(rule, refused, key, body);
      var states, steps := RefusalForgotten(rule, refused, key, body);
      RunLength(rule, states, steps);
      assert Filler(key).Key() == key;
      assert !RefusalsStand(states);
    }
  }

  /** The three servers: the repository's commits at most one transfer, but can go back on "not saved". */
  lemma ServersJudged()
    ensures CommitsOne(Tombstones) && StandsBy(Tombstones)
    ensures CommitsOne(SourceCanceled) && !StandsBy(SourceCanceled)
    ensures !CommitsOne(Forgetful) && !StandsBy(Forgetful)
  {
    forall body: Review, refused, other
      ensures !SourceCanceled(map[body.Key() := body], refused, other)
    {
      assert body.Key() in map[body.Key() := body];
    }
    assert GoesBack(SourceCanceled, {0}, 0, Filler(0));
    assert GoesBack(Forgetful, {0}, 0, Filler(0));
    assert CommitsTwo(Forgetful, Filler(0), {0}, {0}, 1);
  }
}
