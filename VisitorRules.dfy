/**
 * The rules the visitors screen applies to the visitor list: the close-day
 * gate, duplicate-name validation, the two table column validators, the
 * pause/resume choice and the tariff lookup of the tariff column.
 */
module VisitorRules {
  import opened Wrappers
  import opened Visitors
  import opened Lowercase

  /** Message of the name validators. */
  const INVALID_NAME_ERROR: string := "Такое имя уже есть!"
  /** Message of the tariff-column validator. */
  const MISSING_TARIFF_ERROR: string := "Укажите тариф"

  // ---------------------------------------------------------------- close day

  /** The visitors whose status is not finished, in order. */
  function Unfinished(vs: seq<Visitor>): (r: seq<Visitor>)
    ensures |r| <= |vs|
    ensures forall v :: v in r ==> v in vs && v.status != Finished
    ensures forall i :: 0 <= i < |vs| && vs[i].status != Finished ==> vs[i] in r
  {
    if vs == [] then []
    else
      var rest := Unfinished(vs[1..]);
      assert forall i :: 1 <= i < |vs| ==> vs[i] == vs[1..][i - 1];
      (if vs[0].status != Finished then [vs[0]] else []) + rest
  }

  lemma {:induction false} UnfinishedEmpty(vs: seq<Visitor>)
    ensures Unfinished(vs) == [] <==> forall i :: 0 <= i < |vs| ==> vs[i].status == Finished
  {
    if vs != [] {
      UnfinishedEmpty(vs[1..]);
      assert forall i :: 1 <= i < |vs| ==> vs[i] == vs[1..][i - 1];
    }
  }

  /** Whether the day may be closed: no visitor is left once the finished ones are filtered out. */
  function IsPayedVisitors(vs: seq<Visitor>): (paid: bool)
    ensures paid <==> forall i :: 0 <= i < |vs| ==> vs[i].status == Finished
    ensures vs == [] ==> paid
  {
    UnfinishedEmpty(vs);
    |Unfinished(vs)| <= 0
  }

  /** What the close-day button dispatches. */
  function CloseDayAction(vs: seq<Visitor>): (a: Action)
    ensures a == HistoryPut <==> forall i :: 0 <= i < |vs| ==> vs[i].status == Finished
    ensures a != HistoryPut ==> a == ModalHistoryToggle(true)
  {
    if IsPayedVisitors(vs) then HistoryPut else ModalHistoryToggle(true)
  }

  // ------------------------------------------------------- duplicate names

  /** The lower-cased names of the visitors, in list order. */
  function LowerNames(vs: seq<Visitor>): (names: seq<string>)
    ensures |names| == |vs|
    ensures forall n :: n in names <==> exists i :: 0 <= i < |vs| && Lower(vs[i].name) == n
  {
    var names := seq(|vs|, i requires 0 <= i < |vs| => Lower(vs[i].name));
    assert forall i :: 0 <= i < |vs| ==> names[i] == Lower(vs[i].name);
    names
  }

  /** Duplicate-name check: true when the name is already taken, ignoring case. */
  function ValidateVisitorName(vs: seq<Visitor>, name: string): (taken: bool)
    ensures taken <==> exists i :: 0 <= i < |vs| && Lower(vs[i].name) == Lower(name)
  {
    Lower(name) in LowerNames(vs)
  }

  lemma ValidateIgnoresCase(vs: seq<Visitor>, a: string, b: string)
    requires Lower(a) == Lower(b)
    ensures ValidateVisitorName(vs, a) == ValidateVisitorName(vs, b)
  {
  }

  /** Upper-casing or lower-casing the candidate name does not change the verdict. */
  lemma ValidateUnderCaseChange(vs: seq<Visitor>, name: string)
    ensures ValidateVisitorName(vs, Upper(name)) == ValidateVisitorName(vs, name)
    ensures ValidateVisitorName(vs, Lower(name)) == ValidateVisitorName(vs, name)
  {
    LowerOfUpper(name);
    LowerIdempotent(name);
    ValidateIgnoresCase(vs, Upper(name), name);
    ValidateIgnoresCase(vs, Lower(name), name);
  }

  /** Every existing visitor's own name counts as taken. */
  lemma ExistingNameTaken(vs: seq<Visitor>, i: nat)
    requires i < |vs|
    ensures ValidateVisitorName(vs, vs[i].name)
  {
  }

  // ----------------------------------------------------- column validators

  /** The ids of the visitors, in list order. */
  function Ids(vs: seq<Visitor>): (ids: seq<int>)
    ensures |ids| == |vs|
    ensures forall id :: id in ids <==> exists i :: 0 <= i < |vs| && vs[i].id == id
  {
    var ids := seq(|vs|, i requires 0 <= i < |vs| => vs[i].id);
    assert forall i :: 0 <= i < |vs| ==> ids[i] == vs[i].id;
    ids
  }

  /** True when the row's id is one of the listed visitors' ids (an undefined id never is). */
  predicate IsExistingRow(vs: seq<Visitor>, row: RowData)
    ensures IsExistingRow(vs, row) <==> row.id.Some? && exists i :: 0 <= i < |vs| && vs[i].id == row.id.value
  {
    row.id.Some? && row.id.value in Ids(vs)
  }

  /** The name column's validator. */
  function NameColumnError(vs: seq<Visitor>, row: RowData): (err: string)
    ensures err == INVALID_NAME_ERROR <==>
      && row.name.Some? && row.name.value != ""
      && (exists i :: 0 <= i < |vs| && Lower(vs[i].name) == Lower(row.name.value))
      && (row.id.None? || forall i :: 0 <= i < |vs| ==> vs[i].id != row.id.value)
    ensures err != INVALID_NAME_ERROR ==> err == ""
  {
    if row.name.Some? && row.name.value != "" && ValidateVisitorName(vs, row.name.value)
       && !IsExistingRow(vs, row)
    then INVALID_NAME_ERROR
    else ""
  }

  /** A row of a listed visitor (one being edited) is never flagged, whatever its name. */
  lemma EditedRowNeverFlagged(vs: seq<Visitor>, row: RowData, i: nat)
    requires i < |vs| && row.id == Some(vs[i].id)
    ensures NameColumnError(vs, row) == ""
  {
  }

  /** The tariff column's validator: a tariff id that is undefined or 0 counts as not chosen. */
  function TariffColumnError(row: RowData): (err: string)
    ensures err == MISSING_TARIFF_ERROR <==> row.tariffId == None || row.tariffId == Some(0)
    ensures err != MISSING_TARIFF_ERROR ==> err == ""
  {
    if row.tariffId.None? || row.tariffId.value == 0 then MISSING_TARIFF_ERROR else ""
  }

  // ---------------------------------------------------------- pause/resume

  /** The first visitor in the list with the given id, if there is one. */
  function FindById(vs: seq<Visitor>, id: int): (r: Option<Visitor>)
    ensures r.Some? <==> exists i :: 0 <= i < |vs| && vs[i].id == id
    ensures r.Some? ==> exists i :: 0 <= i < |vs| && vs[i] == r.value && r.value.id == id
                                      && forall j :: 0 <= j < i ==> vs[j].id != id
  {
    if vs == [] then None
    else if vs[0].id == id then Some(vs[0])
    else
      var r := FindById(vs[1..], id);
      assert forall i :: 1 <= i < |vs| ==> vs[i] == vs[1..][i - 1];
      r
  }

  /** The status `handleTogglePause` sends for a visitor currently in `s`. */
  function NextStatus(s: Status): (n: Status)
    ensures n != Finished
    ensures n == Pause <==> s == Active
  {
    if s == Active then Pause else Active
  }

  /** Toggling twice brings an active or paused visitor back to where it was. */
  lemma ToggleTwice(s: Status)
    requires s != Finished
    ensures NextStatus(NextStatus(s)) == s
  {
  }

  // ---------------------------------------------------------- tariff lookup

  /**
   * The tariff column's id-to-title lookup, as a left fold over the tariffs:
   * active tariffs are entered in order, so a later one overwrites an earlier
   * one with the same id; inactive tariffs are skipped.
   */
  function TariffLookup(ts: seq<Tariff>): (m: map<int, string>)
    ensures forall k :: k in m ==> exists i :: 0 <= i < |ts| && ts[i].id == k && ts[i].status == TariffActive
    decreases |ts|
  {
    if ts == [] then map[]
    else
      var m := TariffLookup(ts[..|ts| - 1]);
      var t := ts[|ts| - 1];
      if t.status == TariffActive then m[t.id := t.title] else m
  }

  /** The lookup's keys are exactly the ids of active tariffs. */
  lemma {:induction false} TariffLookupKeys(ts: seq<Tariff>, k: int)
    ensures k in TariffLookup(ts) <==> exists i :: 0 <= i < |ts| && ts[i].id == k && ts[i].status == TariffActive
    decreases |ts|
  {
    if ts != [] {
      var init := ts[..|ts| - 1];
      TariffLookupKeys(init, k);
      assert forall i :: 0 <= i < |init| ==> init[i] == ts[i];
    }
  }

  /** Appending a tariff that is not an active one with id `k` leaves the entry for `k` alone. */
  lemma TariffLookupOtherStep(ts: seq<Tariff>, k: int)
    requires ts != [] && !(ts[|ts| - 1].status == TariffActive && ts[|ts| - 1].id == k)
    ensures k in TariffLookup(ts) <==> k in TariffLookup(ts[..|ts| - 1])
    ensures k in TariffLookup(ts) ==> TariffLookup(ts)[k] == TariffLookup(ts[..|ts| - 1])[k]
  {
  }

  /** Each key maps to the title of the last active tariff with that id. */
  lemma {:induction false} TariffLookupTitle(ts: seq<Tariff>, k: int)
    requires k in TariffLookup(ts)
    ensures exists i :: 0 <= i < |ts| && ts[i].id == k && ts[i].status == TariffActive
                        && TariffLookup(ts)[k] == ts[i].title
                        && forall j :: i < j < |ts| && ts[j].id == k ==> ts[j].status != TariffActive
    decreases |ts|
  {
    var init := ts[..|ts| - 1];
    var t := ts[|ts| - 1];
    if t.status == TariffActive && t.id == k {
      var i := |ts| - 1;
      assert ts[i].id == k && ts[i].status == TariffActive && TariffLookup(ts)[k] == ts[i].title;
    } else {
      TariffLookupOtherStep(ts, k);
      TariffLookupTitle(init, k);
      var i :| 0 <= i < |init| && init[i].id == k && init[i].status == TariffActive
               && TariffLookup(init)[k] == init[i].title
               && forall j :: i < j < |init| && init[j].id == k ==> init[j].status != TariffActive;
      assert ts[i] == init[i];
      forall j | i < j < |ts| && ts[j].id == k
        ensures ts[j].status != TariffActive
      {
        if j < |ts| - 1 {
          assert ts[j] == init[j];
        }
      }
    }
  }
}
