/** The store's import actions, cut where they wait: each method runs from one answer to the next and
    leaves the desk where the protocol says. */
module ImportDesk {
  import opened Common
  import opened ImportProtocol

  class Store {
    var importState: ImportState
    var waiting: map<nat, Task>
    var started: nat
    var notes: seq<Note>

    constructor ()
      ensures Now() == CleanDesk && DeskInvariant(Now())
    {
      importState, waiting, started, notes := Idle, map[], 0, [];
    }

    ghost function Now(): Desk
      reads this
    {
      Desk(importState, waiting, started, notes)
    }

    /** `true` when the press did something. */
    method BeginImport() returns (begun: bool)
      modifies this
      ensures Now() == Happen(old(Now()), PressImport)
      ensures DeskInvariant(old(Now())) ==> DeskInvariant(Now())
      ensures begun <==> CanBegin(old(importState))
      ensures begun ==> Owns(Now(), old(started))
    {
      HappeningsKeep(Now(), PressImport);
      var before := importState;
      var next := Transition(before, Begin);
      if next == before {
        return false;
      }
      importState := next;
      waiting := waiting[started := AwaitingFolder];
      started := started + 1;
      return true;
    }

    method FolderChosen(task: nat, folder: Option<Folder>)
      requires Possible(Now(), FolderAnswer(task, folder))
      modifies this
      ensures Now() == Happen(old(Now()), FolderAnswer(task, folder))
      ensures DeskInvariant(old(Now())) ==> DeskInvariant(Now())
    {
      HappeningsKeep(Now(), FolderAnswer(task, folder));
      if folder.None? {
        SettleImport(task, Dismissed);
      } else {
        importState := Transition(importState, Chose);
        waiting := waiting[task := AwaitingInspection(folder.value)];
      }
    }

    method PublicationInspected(task: nat, report: Report)
      requires Possible(Now(), InspectionAnswer(task, report))
      modifies this
      ensures Now() == Happen(old(Now()), InspectionAnswer(task, report))
      ensures DeskInvariant(old(Now())) ==> DeskInvariant(Now())
    {
      HappeningsKeep(Now(), InspectionAnswer(task, report));
      var folder := waiting[task].folder;
      SettleImport(task, InspectionDone(folder, report));
      notes := notes + [InspectionSucceeded(folder)];
    }

    /** `true` when the press did something. */
    method ConfirmImport() returns (confirmed: bool)
      modifies this
      ensures Now() == Happen(old(Now()), PressConfirm)
      ensures DeskInvariant(old(Now())) ==> DeskInvariant(Now())
      ensures confirmed <==> CanConfirm(old(importState))
      ensures confirmed ==> notes == old(notes) + [ImportCalled(old(importState).product.folder)]
    {
      HappeningsKeep(Now(), PressConfirm);
      var pending := InspectedNow(importState);
      var next := Transition(importState, Confirm);
      if pending.None? || next == importState {
        return false;
      }
      importState := next;
      notes := notes + [ImportCalled(pending.value)];
      waiting := waiting[started := AwaitingImport(pending.value)];
      started := started + 1;
      return true;
    }

    method PublicationImported(task: nat, entry: LibraryEntry)
      requires Possible(Now(), ImportAnswer(task, entry))
      modifies this
      ensures Now() == Happen(old(Now()), ImportAnswer(task, entry))
      ensures DeskInvariant(old(Now())) ==> DeskInvariant(Now())
    {
      HappeningsKeep(Now(), ImportAnswer(task, entry));
      importState := Transition(importState, ImportDone(entry));
      waiting := waiting[task := AwaitingListing(entry)];
    }

    method LibraryListed(task: nat)
      requires Possible(Now(), ListingAnswer(task))
      modifies this
      ensures Now() == Happen(old(Now()), ListingAnswer(task))
      ensures DeskInvariant(old(Now())) ==> DeskInvariant(Now())
    {
      HappeningsKeep(Now(), ListingAnswer(task));
      SettleImport(task, Acknowledge);
    }

    method Rejected(task: nat, failure: Failure)
      requires Possible(Now(), Rejection(task, failure))
      modifies this
      ensures Now() == Happen(old(Now()), Rejection(task, failure))
      ensures DeskInvariant(old(Now())) ==> DeskInvariant(Now())
    {
      HappeningsKeep(Now(), Rejection(task, failure));
      var inspecting := waiting[task].AwaitingInspection?;
      SettleImport(task, Failing(failure));
      if inspecting {
        notes := notes + [InspectionFailed];
      }
    }

    /** `true` when there was something to put away. */
    method CloseImport() returns (closed: bool)
      modifies this
      ensures Now() == Happen(old(Now()), PressClose)
      ensures DeskInvariant(old(Now())) ==> DeskInvariant(Now())
      ensures closed <==> CanClose(old(importState)) && !old(importState).Idle?
    {
      HappeningsKeep(Now(), PressClose);
      var before := importState;
      var next := Transition(before, Acknowledge);
      if next == before {
        return false;
      }
      importState := next;
      return true;
    }

    /** The end of an action: its event moves the machine, and nothing waits for it any more. */
    method SettleImport(task: nat, event: ImportEvent)
      modifies this
      ensures Now() == Settle(old(Now()), task, event)
    {
      importState := Transition(importState, event);
      waiting := waiting - {task};
    }
  }
}
