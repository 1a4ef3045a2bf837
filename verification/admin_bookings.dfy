/**
 * The bookings admin screen: the status badge, the status selector's write
 * and the deletion of a booking. The `bookings` table is a map from id to
 * row held by the screen; the confirmation dialog and the database's errors
 * are parameters.
 */
module AdminBookings {
  import opened Wrappers
  import opened Crud

  /** The badge styles the screen uses. */
  datatype Variant = Default | Secondary | Destructive | Outline

  /** The statuses the selector offers. */
  const StatusChoices: seq<string> := ["pending", "confirmed", "cancelled", "completed"]

  /** A `bookings` row. */
  datatype Booking = Booking(
    clientName: string, clientEmail: string, clientPhone: Option<string>,
    eventType: string, eventDate: string, eventTime: Option<string>,
    location: string, budgetRange: Option<string>, attendance: Option<int>,
    message: Option<string>, status: Option<string>, createdAt: Option<string>)

  /**
   * `getStatusBadge`: the variant for each of the four statuses, and
   * "secondary" for any other value, null included.
   */
  function BadgeVariant(status: Option<string>): (v: Variant)
    ensures status == Some("pending") ==> v == Secondary
    ensures status == Some("confirmed") ==> v == Default
    ensures status == Some("cancelled") ==> v == Destructive
    ensures status == Some("completed") ==> v == Outline
    ensures (status.None? || status.value !in StatusChoices) ==> v == Secondary
  {
    match status
    case None => Secondary
    case Some(s) =>
      if s == "confirmed" then Default
      else if s == "cancelled" then Destructive
      else if s == "completed" then Outline
      else Secondary
  }

  /**
   * Only "pending" shares its badge with unknown statuses: the four offered
   * statuses are told apart, and a badge other than "secondary" names its
   * status.
   */
  lemma BadgesDistinguishStatuses(s: string, t: string)
    requires s in StatusChoices && t in StatusChoices
    ensures BadgeVariant(Some(s)) == BadgeVariant(Some(t)) <==> s == t
  {
  }

  lemma {:induction false} BadgeNamesStatus(status: Option<string>)
    ensures BadgeVariant(status) == Default <==> status == Some("confirmed")
    ensures BadgeVariant(status) == Destructive <==> status == Some("cancelled")
    ensures BadgeVariant(status) == Outline <==> status == Some("completed")
  {
    if status.Some? && status.value in StatusChoices {
      assert status.value in ["pending", "confirmed", "cancelled", "completed"];
    }
  }

  /**
   * `update({ status }).eq("id", id)`: the booking with that id, if any, has
   * the new status; every other booking and every other field is unchanged.
   */
  function WithStatus(table: map<string, Booking>, id: string, status: string): (t: map<string, Booking>)
    ensures t.Keys == table.Keys
    ensures id in table ==> t[id].status == Some(status) && t[id].(status := table[id].status) == table[id]
    ensures forall k :: k in table && k != id ==> t[k] == table[k]
  {
    if id in table then table[id := table[id].(status := Some(status))] else table
  }

  /** Setting the same status twice is setting it once; a later status overrides an earlier one. */
  lemma {:induction false} WithStatusOverrides(table: map<string, Booking>, id: string, s1: string, s2: string)
    ensures WithStatus(WithStatus(table, id, s1), id, s2) == WithStatus(table, id, s2)
  {
    if id in table {
      var once := WithStatus(table, id, s1);
      assert once[id].(status := Some(s2)) == table[id].(status := Some(s2));
    }
  }

  class BookingsScreen {
    var bookings: map<string, Booking>

    constructor (table: map<string, Booking>)
      ensures bookings == table
    {
      bookings := table;
    }

    /** `updateStatus`: on success the booking has the chosen status and the list is reloaded. */
    method UpdateStatus(id: string, status: string, writeError: Option<string>) returns (reload: bool)
      modifies this
      ensures reload == writeError.None?
      ensures bookings == if reload then WithStatus(old(bookings), id, status) else old(bookings)
    {
      reload := writeError.None?;
      if reload {
        bookings := WithStatus(bookings, id, status);
      }
    }

    /**
     * `deleteBooking`: a declined confirmation sends nothing; otherwise the
     * booking with that id is removed, unless the delete fails.
     */
    method DeleteBooking(id: string, confirmed: bool, writeError: Option<string>) returns (sent: bool, reload: bool)
      modifies this
      ensures sent == confirmed
      ensures reload == (confirmed && writeError.None?)
      ensures bookings == if reload then Removed(old(bookings), id) else old(bookings)
    {
      sent, reload := confirmed, false;
      if !confirmed {
        return;
      }
      if writeError.None? {
        bookings := Removed(bookings, id);
        reload := true;
      }
    }
  }
}
