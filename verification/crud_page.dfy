/** The list page shared by teachers and students: the records, the search query, the
    form modal, the delete confirmation and the toast, as a state machine whose every
    backend call is returned as a value and whose every backend result is an input. */
module CrudPage {
  import opened Common
  import Search

  datatype ToastKind = SuccessToast | ErrorToast
  datatype Toast = Toast(message: string, kind: ToastKind)

  /** What tells the two pages apart: the nouns in their messages and the fields the
      search looks at. */
  datatype Entity = Entity(title: string, noun: string, searched: seq<string>)

  /** The backend call a handler makes. `id` is `undefined` when the record has none. */
  datatype Call =
    | NoCall
    | CreateCall(data: Record)
    | UpdateCall(id: Option<string>, data: Record)
    | DeleteCall(id: Option<string>)

  /** The page's state: `items` from the live subscription, `query` from the search
      box, `formOpen` and `editing` for the modal, `pendingDelete` for the dialog. */
  datatype Page = Page(
    items: seq<Record>,
    query: string,
    formOpen: bool,
    editing: Option<Record>,
    pendingDelete: Option<Record>,
    toast: Option<Toast>)

  const Initial: Page := Page([], "", false, None, None, None)

  /** What can happen to the page. Results of backend calls come with the event. */
  datatype Event =
    | Snapshot(items: seq<Record>)           // the subscription delivered a new list
    | SetQuery(query: string)                // the search box changed
    | Add                                    // `handleAdd`
    | Edit(record: Record)                   // `handleEdit`
    | RequestDelete(record: Record)          // `handleDelete`
    | CancelDelete                           // the dialog's close or cancel
    | ConfirmDelete(result: Outcome)         // `confirmDelete` and its delete's result
    | Submit(data: Record, result: Outcome)  // `handleSubmit` and its write's result
    | CloseForm                              // the modal's close or the form's cancel
    | DismissToast                           // the toast closes

  /** A transition: the new state, the backend call made, and whether the handler
      rethrew the backend's error to its caller. */
  datatype Step = Step(page: Page, call: Call, rethrown: bool)

  /** The list the page shows: the search effect applied to the current records. */
  function Visible(e: Entity, p: Page): seq<Record> {
    Search.Filter(p.items, e.searched, p.query)
  }

  function IdOf(r: Record): Option<string> {
    Get(r, "id")
  }

  /** `handleAdd`: opens an empty form, never in edit mode. */
  function AddForm(p: Page): (q: Page)
    ensures q.formOpen && q.editing.None?
    ensures q.items == p.items && q.query == p.query && q.pendingDelete == p.pendingDelete && q.toast == p.toast
  {
    p.(formOpen := true, editing := None)
  }

  /** `handleEdit`: opens the form on the chosen record. */
  function EditForm(p: Page, r: Record): (q: Page)
    ensures q.formOpen && q.editing == Some(r)
    ensures q.items == p.items && q.query == p.query && q.pendingDelete == p.pendingDelete && q.toast == p.toast
  {
    p.(formOpen := true, editing := Some(r))
  }

  /** `handleDelete`: only remembers which record to delete; nothing is deleted yet. */
  function AskDelete(p: Page, r: Record): (q: Page)
    ensures q.pendingDelete == Some(r)
    ensures q.items == p.items && q.query == p.query && q.formOpen == p.formOpen && q.editing == p.editing && q.toast == p.toast
  {
    p.(pendingDelete := Some(r))
  }

  /** `confirmDelete`. With a pending record, deletes it; on success the toast reports
      it and the pending record is cleared, on failure an error toast is set and the
      pending record stays. With none, reading `deleteConfirm.id` throws inside the
      `try`, so no call is made and the error toast is set. */
  function ConfirmDeleteStep(e: Entity, p: Page, result: Outcome): (s: Step)
    ensures s.call.DeleteCall? <==> p.pendingDelete.Some?
    ensures s.call.DeleteCall? ==> s.call.id == IdOf(p.pendingDelete.value)
    ensures s.call.NoCall? <==> p.pendingDelete.None?
    ensures s.page.pendingDelete.None? <==> p.pendingDelete.None? || result.Succeeded?
    ensures s.page.pendingDelete.Some? ==> s.page.pendingDelete == p.pendingDelete
    ensures s.page.toast.Some? && (s.page.toast.value.kind == SuccessToast <==> p.pendingDelete.Some? && result.Succeeded?)
    ensures s.page.toast.value.kind == SuccessToast ==> s.page.toast.value.message == e.title + " deleted successfully"
    ensures s.page.toast.value.kind == ErrorToast ==> s.page.toast.value.message == "Failed to delete " + e.noun
    ensures s.page.items == p.items && s.page.query == p.query && s.page.formOpen == p.formOpen && s.page.editing == p.editing
    ensures !s.rethrown
  {
    match p.pendingDelete
    case None => Step(p.(toast := Some(Toast("Failed to delete " + e.noun, ErrorToast))), NoCall, false)
    case Some(r) =>
      var call := DeleteCall(IdOf(r));
      if result.Succeeded? then
        Step(p.(toast := Some(Toast(e.title + " deleted successfully", SuccessToast)), pendingDelete := None), call, false)
      else
        Step(p.(toast := Some(Toast("Failed to delete " + e.noun, ErrorToast))), call, false)
  }

  /** `handleSubmit`: updates the record being edited (by its id) or creates a new one.
      On success the form closes and edit mode ends; on failure an error toast is set,
      the form stays as it was, and the error is rethrown to the form. */
  function SubmitStep(e: Entity, p: Page, data: Record, result: Outcome): (s: Step)
    ensures p.editing.Some? ==> s.call == UpdateCall(IdOf(p.editing.value), data)
    ensures p.editing.None? ==> s.call == CreateCall(data)
    ensures result.Succeeded? ==> !s.page.formOpen && s.page.editing.None? && !s.rethrown
    ensures result.Succeeded? ==>
              s.page.toast == Some(Toast(e.title + (if p.editing.Some? then " updated successfully" else " added successfully"), SuccessToast))
    ensures result.Failed? ==>
              s.rethrown && s.page == p.(toast := Some(Toast("Failed to save " + e.noun, ErrorToast)))
    ensures s.page.items == p.items && s.page.query == p.query && s.page.pendingDelete == p.pendingDelete
  {
    var call := if p.editing.Some? then UpdateCall(IdOf(p.editing.value), data) else CreateCall(data);
    if result.Failed? then
      Step(p.(toast := Some(Toast("Failed to save " + e.noun, ErrorToast))), call, true)
    else
      var message := if p.editing.Some? then e.title + " updated successfully" else e.title + " added successfully";
      Step(p.(toast := Some(Toast(message, SuccessToast)), formOpen := false, editing := None), call, false)
  }

  /** One event. */
  function Handle(e: Entity, p: Page, ev: Event): Step {
    match ev
    case Snapshot(items) => Step(p.(items := items), NoCall, false)
    case SetQuery(query) => Step(p.(query := query), NoCall, false)
    case Add => Step(AddForm(p), NoCall, false)
    case Edit(r) => Step(EditForm(p, r), NoCall, false)
    case RequestDelete(r) => Step(AskDelete(p, r), NoCall, false)
    case CancelDelete => Step(p.(pendingDelete := None), NoCall, false)
    case ConfirmDelete(result) => ConfirmDeleteStep(e, p, result)
    case Submit(data, result) => SubmitStep(e, p, data, result)
    case CloseForm => Step(p.(formOpen := false, editing := None), NoCall, false)
    case DismissToast => Step(p.(toast := None), NoCall, false)
  }

  /** Only confirming a pending deletion and saving the form reach the backend; a delete
      call is made exactly when a deletion is confirmed with a record pending, and then
      for that record's id. */
  lemma CallsComeOnlyFromConfirmAndSubmit(e: Entity, p: Page, ev: Event)
    ensures Handle(e, p, ev).call != NoCall ==> ev.ConfirmDelete? || ev.Submit?
    ensures Handle(e, p, ev).call.DeleteCall? <==> ev.ConfirmDelete? && p.pendingDelete.Some?
    ensures Handle(e, p, ev).call.DeleteCall? ==> Handle(e, p, ev).call.id == IdOf(p.pendingDelete.value)
    ensures Handle(e, p, ev).call.UpdateCall? <==> ev.Submit? && p.editing.Some?
    ensures Handle(e, p, ev).rethrown <==> ev.Submit? && ev.result.Failed?
  {
  }

  /** The page never edits a record while the form is closed: every event keeps the
      form open whenever a record is being edited. */
  lemma EditingImpliesFormOpen(e: Entity, p: Page, ev: Event)
    requires p.editing.Some? ==> p.formOpen
    ensures Handle(e, p, ev).page.editing.Some? ==> Handle(e, p, ev).page.formOpen
  {
  }

  /** Closing the form, cancelling the delete dialog and closing the toast: each
      clears only its own part of the page, reaches no backend and rethrows nothing.
      Closing the form always ends editing, and cancelling always forgets the pending
      record. */
  lemma DismissalsClearOnlyTheirPart(e: Entity, p: Page)
    ensures var q := Handle(e, p, CloseForm).page;
            && !q.formOpen && q.editing.None?
            && q.items == p.items && q.query == p.query && q.pendingDelete == p.pendingDelete && q.toast == p.toast
    ensures var q := Handle(e, p, CancelDelete).page;
            && q.pendingDelete.None?
            && q.items == p.items && q.query == p.query && q.formOpen == p.formOpen && q.editing == p.editing && q.toast == p.toast
    ensures var q := Handle(e, p, DismissToast).page;
            && q.toast.None?
            && q.items == p.items && q.query == p.query && q.formOpen == p.formOpen && q.editing == p.editing && q.pendingDelete == p.pendingDelete
    ensures Handle(e, p, CloseForm).call == NoCall && Handle(e, p, CancelDelete).call == NoCall && Handle(e, p, DismissToast).call == NoCall
    ensures !Handle(e, p, CloseForm).rethrown && !Handle(e, p, CancelDelete).rethrown && !Handle(e, p, DismissToast).rethrown
  {
  }

  /** Runs a sequence of events, collecting the call each one made. */
  function Run(e: Entity, p: Page, evs: seq<Event>): (r: (Page, seq<Call>))
    ensures |r.1| == |evs|
    decreases |evs|
  {
    if |evs| == 0 then (p, [])
    else
      var prev := Run(e, p, evs[..|evs| - 1]);
      var s := Handle(e, prev.0, evs[|evs| - 1]);
      (s.page, prev.1 + [s.call])
  }

  /** The list the page holds is the one the subscription delivered last, or the
      starting list if it delivered none: no handler edits the list itself. */
  lemma {:induction false} ListIsLastSnapshot(e: Entity, p: Page, evs: seq<Event>)
    ensures (forall i :: 0 <= i < |evs| ==> !evs[i].Snapshot?) ==> Run(e, p, evs).0.items == p.items
    ensures forall i :: 0 <= i < |evs| && evs[i].Snapshot? && (forall j :: i < j < |evs| ==> !evs[j].Snapshot?) ==>
              Run(e, p, evs).0.items == evs[i].items
    decreases |evs|
  {
    if |evs| > 0 {
      var n := |evs| - 1;
      var init := evs[..n];
      ListIsLastSnapshot(e, p, init);
      var prev := Run(e, p, init);
      ItemsOnlyFromSnapshot(e, prev.0, evs[n]);
      assert Run(e, p, evs).0 == Handle(e, prev.0, evs[n]).page;
      assert forall j :: 0 <= j < n ==> init[j] == evs[j];
    }
  }

  /** Only a snapshot replaces the list. */
  lemma ItemsOnlyFromSnapshot(e: Entity, p: Page, ev: Event)
    ensures Handle(e, p, ev).page.items == if ev.Snapshot? then ev.items else p.items
  {
  }

  /** A pending deletion is either the one already pending or the record the event
      asked to delete. */
  lemma PendingComesFromRequest(e: Entity, p: Page, ev: Event)
    ensures Handle(e, p, ev).page.pendingDelete.Some? ==>
              Handle(e, p, ev).page.pendingDelete == p.pendingDelete || ev == RequestDelete(Handle(e, p, ev).page.pendingDelete.value)
  {
  }

  /** Delete needs confirmation: starting with no pending deletion, every delete call
      targets the id of a record the user earlier asked to delete, and a pending record
      is always one the user asked to delete. */
  lemma {:induction false} DeleteOnlyAfterRequest(e: Entity, p: Page, evs: seq<Event>)
    requires p.pendingDelete.None?
    ensures forall i :: 0 <= i < |evs| && Run(e, p, evs).1[i].DeleteCall? ==>
              exists j :: 0 <= j < i && evs[j].RequestDelete? && Run(e, p, evs).1[i].id == IdOf(evs[j].record)
    ensures Run(e, p, evs).0.pendingDelete.Some? ==>
              exists j :: 0 <= j < |evs| && evs[j] == RequestDelete(Run(e, p, evs).0.pendingDelete.value)
    decreases |evs|
  {
    if |evs| > 0 {
      var n := |evs| - 1;
      var init := evs[..n];
      DeleteOnlyAfterRequest(e, p, init);
      var prev := Run(e, p, init);
      var s := Handle(e, prev.0, evs[n]);
      CallsComeOnlyFromConfirmAndSubmit(e, prev.0, evs[n]);
      PendingComesFromRequest(e, prev.0, evs[n]);
      var calls := Run(e, p, evs).1;
      assert Run(e, p, evs) == (s.page, prev.1 + [s.call]);
      assert forall j :: 0 <= j < n ==> init[j] == evs[j];
      forall i | 0 <= i < |evs| && calls[i].DeleteCall?
        ensures exists j :: 0 <= j < i && evs[j].RequestDelete? && calls[i].id == IdOf(evs[j].record)
      {
        if i < n {
          assert calls[i] == prev.1[i];
        } else {
          var j :| 0 <= j < n && init[j] == RequestDelete(prev.0.pendingDelete.value);
          assert evs[j].RequestDelete? && calls[i].id == IdOf(evs[j].record);
        }
      }
      if s.page.pendingDelete.Some? && s.page.pendingDelete == prev.0.pendingDelete {
        var j :| 0 <= j < n && init[j] == RequestDelete(prev.0.pendingDelete.value);
        assert evs[j] == RequestDelete(s.page.pendingDelete.value);
      }
    }
  }
}
