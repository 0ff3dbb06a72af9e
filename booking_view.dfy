/**
 * `BookingView`: the shop's seating list. Staff add a reservation or a
 * walk-in, which starts out waiting, and check a waiting party in.
 */
module BookingView {
  import opened Basics
  import opened Keyed
  import opened Types
  import DataService

  /** The add form: phone, table number, source and time, as typed. */
  datatype Form = Form(phone: string, tableNo: string, source: ReservationSource, time: string)

  /** The form after a successful add: every field empty, the source back to walk-in. */
  const ClearedForm: Form := Form("", "", WalkIn, "")

  /**
   * The record `handleAdd` hands to `addReservation` (the store adds the id):
   * the form's fields as typed, no check of the table number against the
   * shop's tables, status waiting and no check-in time.
   */
  function NewReservation(shopId: string, form: Form): (r: Reservation)
    ensures r.shopId == shopId && r.status == Waiting && r.checkInTime.None?
    ensures r.phone == form.phone && r.tableNo == form.tableNo
    ensures r.source == form.source && r.time == form.time
  {
    Reservation("", shopId, form.time, form.tableNo, form.phone, form.source, Waiting, None)
  }

  /** `{ ...res, status: '已入座', checkInTime: now }`: only status and check-in time change. */
  function CheckedIn(res: Reservation, now: int): (r: Reservation)
    ensures r.status == Seated && r.checkInTime == Some(now)
    ensures r.(status := res.status, checkInTime := res.checkInTime) == res
  {
    res.(status := Seated, checkInTime := Some(now))
  }

  /** The check-in button is shown only for a waiting party. */
  predicate CanCheckIn(res: Reservation): (offered: bool)
    ensures offered <==> res.status.Text() == "待入座"
  {
    res.status == Waiting
  }

  /** A party that has been checked in is not offered check-in again, and a new one is. */
  lemma CheckInOffered(shopId: string, form: Form, res: Reservation, now: int)
    ensures CanCheckIn(NewReservation(shopId, form))
    ensures !CanCheckIn(CheckedIn(res, now))
    ensures CanCheckIn(res) <==> res.status.Text() == "待入座"
  {
  }

  /**
   * With unique ids, the screen's list after check-in (every entry with the
   * id replaced) is the list the store writes (the first entry replaced),
   * and only that entry differs.
   */
  lemma CheckInListsAgree(list: seq<Reservation>, res: Reservation, now: int)
    requires UniqueKeys(list, ReservationId)
    ensures ReplaceAll(list, ReservationId, res.id, CheckedIn(res, now))
         == ReplaceFirst(list, ReservationId, res.id, CheckedIn(res, now))
    ensures forall i :: 0 <= i < |list| && list[i].id != res.id ==>
              ReplaceAll(list, ReservationId, res.id, CheckedIn(res, now))[i] == list[i]
  {
    ReplaceAllIsReplaceFirst(list, ReservationId, res.id, CheckedIn(res, now));
  }

  /** The page's state for one shop. */
  class BookingPage {
    const shopId: string
    var reservations: seq<Reservation>
    var isModalOpen: bool
    var form: Form

    /** `initialTime` is the current local time as `HH:mm`. */
    constructor (shopId: string, initialTime: string)
      ensures this.shopId == shopId && reservations == [] && !isModalOpen
      ensures form == Form("", "", WalkIn, initialTime)
    {
      this.shopId := shopId;
      reservations := [];
      isModalOpen := false;
      form := Form("", "", WalkIn, initialTime);
    }

    /** The effect: the shop's reservations, in stored order. */
    method Load(ds: DataService.Store) returns (r: Result<()>)
      modifies this`reservations
      ensures match ds.Reservations(shopId)
              case Err(f) => r == Err(f) && reservations == old(reservations)
              case Ok(list) => r == Ok(()) && reservations == list
    {
      var loaded := ds.Reservations(shopId);
      match loaded
      case Err(f) => r := Err(f);
      case Ok(list) =>
        reservations := list;
        r := Ok(());
    }

    /** The form's inputs. */
    method EditForm(f: Form)
      modifies this`form
      ensures form == f
    {
      form := f;
    }

    method OpenModal(open: bool)
      modifies this`isModalOpen
      ensures isModalOpen == open
    {
      isModalOpen := open;
    }

    /**
     * `handleAdd`: the form becomes a waiting reservation of this shop,
     * appended to the store with a new id and put first on the screen; the
     * dialog closes and the form is cleared. A store that throws leaves the
     * page as it was.
     */
    method HandleAdd(ds: DataService.Store, freshId: string, fits: bool) returns (r: Result<Reservation>)
      requires ds.reservations.Json? ==> !HasKey(ds.reservations.value, ReservationId, freshId)
      modifies this`reservations, this`isModalOpen, this`form, ds`reservations
      ensures var added := NewReservation(shopId, old(form)).(id := freshId);
              && (old(ds.reservations).Garbled? || !fits ==>
                    && r.Err? && ds.reservations == old(ds.reservations)
                    && reservations == old(reservations) && isModalOpen == old(isModalOpen) && form == old(form))
              && (!old(ds.reservations).Garbled? && fits ==>
                    && r == Ok(added)
                    && ds.reservations == Json(ParseList(old(ds.reservations)).value + [added])
                    && reservations == [added] + old(reservations)
                    && !isModalOpen && form == ClearedForm)
      ensures old(ds.Valid()) ==> ds.Valid()
    {
      r := ds.AddReservation(NewReservation(shopId, form), freshId, fits);
      if r.Err? {
        return;
      }
      reservations := [r.value] + reservations;
      isModalOpen := false;
      form := ClearedForm;
    }

    /**
     * `handleCheckIn`: the party is marked seated at `now`; the store replaces
     * the record with that id, and so does the screen's list. A store that
     * throws leaves the list as it was.
     */
    method HandleCheckIn(ds: DataService.Store, res: Reservation, now: int, fits: bool) returns (r: Result<()>)
      modifies this`reservations, ds`reservations
      ensures var updated := CheckedIn(res, now);
              && (old(ds.reservations).Garbled? || !fits ==>
                    r.Err? && ds.reservations == old(ds.reservations) && reservations == old(reservations))
              && (!old(ds.reservations).Garbled? && fits ==>
                    && r == Ok(())
                    && ds.reservations == Json(ReplaceFirst(ParseList(old(ds.reservations)).value, ReservationId, res.id, updated))
                    && reservations == ReplaceAll(old(reservations), ReservationId, res.id, updated))
      ensures old(ds.Valid()) ==> ds.Valid()
    {
      var updated := CheckedIn(res, now);
      r := ds.UpdateReservation(updated, fits);
      if r.Err? {
        return;
      }
      reservations := ReplaceAll(reservations, ReservationId, res.id, updated);
    }

    /** A click on row `row`: the check-in button exists only for a waiting party. */
    method ClickCheckIn(ds: DataService.Store, row: nat, now: int, fits: bool) returns (r: Result<()>)
      requires row < |reservations|
      modifies this`reservations, ds`reservations
      ensures !CanCheckIn(old(reservations)[row]) ==>
                r == Ok(()) && reservations == old(reservations) && ds.reservations == old(ds.reservations)
      ensures CanCheckIn(old(reservations)[row]) && !old(ds.reservations).Garbled? && fits ==>
                && r == Ok(())
                && reservations == ReplaceAll(old(reservations), ReservationId, old(reservations)[row].id,
                                               CheckedIn(old(reservations)[row], now))
                && reservations[row].status == Seated
      ensures CanCheckIn(old(reservations)[row]) && (old(ds.reservations).Garbled? || !fits) ==>
                r.Err? && reservations == old(reservations) && ds.reservations == old(ds.reservations)
      ensures old(ds.Valid()) ==> ds.Valid()
    {
      var res := reservations[row];
      if !CanCheckIn(res) {
        return Ok(());
      }
      r := HandleCheckIn(ds, res, now, fits);
    }
  }
}
