/**
 * The visitors screen component. Its props are the visitor list, the tariffs
 * and the default tariff; the visitor list is replaced when the store passes a
 * new one on a re-render. Its own state is the quick-add field and its invalid
 * flag. Every action the modelled handlers hand to the store is recorded, in
 * order, in `log`; what the store then does with it is not modelled.
 */
module VisitorsScreen {
  import opened Wrappers
  import opened Visitors
  import opened Lowercase
  import opened VisitorRules

  class VisitorsComponent {
    var visitors: seq<Visitor>
    const tariffs: seq<Tariff>
    const defaultTariff: int
    var fastVisitorName: string
    var fastVisitorNameInvalid: bool
    /** The actions dispatched so far, oldest first. */
    var log: seq<Action>
    /** The visitor list the quick-add field was last checked against. */
    ghost var checkedAgainst: seq<Visitor>

    /**
     * The invalid flag is the duplicate-name verdict on the quick-add field,
     * taken against the list it was last checked against, except in the
     * cleared field after a submission or at mount, where it is off.
     */
    ghost predicate Valid()
      reads this
      ensures Valid() && fastVisitorNameInvalid ==> ValidateVisitorName(checkedAgainst, fastVisitorName)
    {
      || fastVisitorNameInvalid == ValidateVisitorName(checkedAgainst, fastVisitorName)
      || (fastVisitorName == "" && !fastVisitorNameInvalid)
    }

    constructor (visitors: seq<Visitor>, tariffs: seq<Tariff>, defaultTariff: int)
      ensures Valid()
      ensures this.visitors == visitors && this.tariffs == tariffs && this.defaultTariff == defaultTariff
      ensures fastVisitorName == "" && !fastVisitorNameInvalid && log == []
    {
      this.visitors := visitors;
      this.tariffs := tariffs;
      this.defaultTariff := defaultTariff;
      fastVisitorName := "";
      fastVisitorNameInvalid := false;
      log := [];
      checkedAgainst := visitors;
    }

    /**
     * A re-render with a new visitor list from the store. The component's own
     * state, and with it the invalid flag, is kept as it is.
     */
    method ReceiveVisitors(newVisitors: seq<Visitor>)
      requires Valid()
      modifies this`visitors
      ensures Valid()
      ensures visitors == newVisitors
    {
      visitors := newVisitors;
    }

    /**
     * `handleTogglePause`: one event for the row's visitor at time `now`,
     * pausing an active visitor and resuming any other. When no listed visitor
     * has the row's id the lookup yields undefined and reading its status
     * throws before anything is dispatched; `found` is then false.
     */
    method HandleTogglePause(currentUser: Visitor, now: int) returns (found: bool)
      modifies this`log
      ensures found <==> exists i :: 0 <= i < |visitors| && visitors[i].id == currentUser.id
      ensures found ==> log == old(log) + [Event(EventUser(now, NextStatus(FindById(visitors, currentUser.id).value.status), currentUser.id))]
      ensures !found ==> log == old(log)
    {
      var updatedVisitor := FindById(visitors, currentUser.id);
      if updatedVisitor.None? {
        return false;
      }
      if updatedVisitor.value.status == Active {
        log := log + [Event(EventUser(now, Pause, currentUser.id))];
      } else {
        log := log + [Event(EventUser(now, Active, currentUser.id))];
      }
      assert updatedVisitor.value in visitors;
      found := true;
    }

    /** `changeVisitorFast`: store the typed text and its duplicate-name verdict. */
    method ChangeVisitorFast(value: string)
      modifies this`fastVisitorName, this`fastVisitorNameInvalid, this`checkedAgainst
      ensures Valid()
      ensures fastVisitorName == value
      ensures fastVisitorNameInvalid == ValidateVisitorName(visitors, value)
      ensures checkedAgainst == visitors
    {
      checkedAgainst := visitors;
      fastVisitorName := value;
      var isInvalidName := ValidateVisitorName(visitors, value);
      fastVisitorNameInvalid := isInvalidName;
    }

    /**
     * `submitVisitorFast`: an empty or flagged field dispatches nothing;
     * otherwise one add with the default tariff and no discount, and the field
     * is cleared. The invalid flag is left as it is. An added name was free
     * in the list the field was last checked against; it can be taken in the
     * current list when that list has changed since (see `StaleFlagScenario`).
     */
    method SubmitVisitorFast()
      requires Valid()
      modifies this`fastVisitorName, this`log
      ensures Valid()
      ensures old(fastVisitorName) == "" || old(fastVisitorNameInvalid) ==>
                fastVisitorName == old(fastVisitorName) && log == old(log)
      ensures old(fastVisitorName) != "" && !old(fastVisitorNameInvalid) ==>
                fastVisitorName == "" && log == old(log) + [Add(NewVisitor(old(fastVisitorName), defaultTariff, 0))]
      ensures log != old(log) ==> !ValidateVisitorName(checkedAgainst, old(fastVisitorName))
      ensures log != old(log) && checkedAgainst == visitors ==> !ValidateVisitorName(visitors, old(fastVisitorName))
    {
      if fastVisitorName == "" || fastVisitorNameInvalid {
        return;
      }
      log := log + [Add(NewVisitor(fastVisitorName, defaultTariff, 0))];
      fastVisitorName := "";
    }

    /** `tariffsColumn`: the id-to-title lookup of the tariff column. */
    method TariffsColumn() returns (lookup: map<int, string>)
      ensures lookup == TariffLookup(tariffs)
    {
      lookup := map[];
      for i := 0 to |tariffs|
        invariant lookup == TariffLookup(tariffs[..i])
      {
        var tariff := tariffs[i];
        assert tariffs[..i + 1][..i] == tariffs[..i];
        if tariff.status == TariffActive {
          lookup := lookup[tariff.id := tariff.title];
        }
      }
      assert tariffs[..|tariffs|] == tariffs;
    }

    /** The close-day button: archive when everyone is finished, else open the reminder. */
    method CloseDay()
      modifies this`log
      ensures log == old(log) + [CloseDayAction(visitors)]
      ensures log[|log| - 1] == HistoryPut <==> forall i :: 0 <= i < |visitors| ==> visitors[i].status == Finished
    {
      if IsPayedVisitors(visitors) {
        log := log + [HistoryPut];
      } else {
        log := log + [ModalHistoryToggle(true)];
      }
    }
  }

  /**
   * The quick-add guard can be outrun by a re-render: "Анна" is typed while
   * it is free, a table row is then renamed to "Анна" (accepted, since that
   * row's id is listed), and submitting the field still adds a second "Анна".
   */
  method StaleFlagScenario() {
    var anna := "Анна";
    var boris := "Борис";
    var c := new VisitorsComponent([Visitor(1, boris, 1, 0, [], Active)], [], 1);
    assert Lower(anna)[0] != Lower(boris)[0];
    c.ChangeVisitorFast(anna);
    assert !c.fastVisitorNameInvalid;
    var renamed := [Visitor(1, anna, 1, 0, [], Active)];
    EditedRowNeverFlagged(c.visitors, RowData(Some(1), Some(anna), Some(1)), 0);
    c.ReceiveVisitors(renamed);
    c.SubmitVisitorFast();
    assert c.log == [Add(NewVisitor(anna, 1, 0))];
    ExistingNameTaken(c.visitors, 0);
    assert ValidateVisitorName(c.visitors, anna);
  }
}
