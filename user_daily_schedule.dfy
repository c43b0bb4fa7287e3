/** `UserDailySchedule`: the stored effort of one person on one day, kept
 *  in `user_daily_schedules` and rewritten whenever an entry of one of their
 *  issues changes. */
module UserDailySchedule {
  import opened Optional
  import opened Hundredths
  import opened Calendar
  import opened Schema
  import opened Store

  /** `round_total_to_2dp`: the `before_validation` hook, one reassignment of
   *  `total_man_days` after another. */
  method RoundTotalTo2dp(totalManDays: Option<Decimal>) returns (rounded: int)
    ensures Normalized(totalManDays, MAX_MAN_DAYS, rounded)
    ensures 0 <= rounded <= MAX_MAN_DAYS
  {
    var total := totalManDays;
    if total.None? {
      total := Some(Decimal(0, 0));
    }
    var r := Round2(total.value);
    if r < 0 {
      r := 0;
    }
    if r > MAX_MAN_DAYS {
      r := MAX_MAN_DAYS;
    }
    rounded := r;
  }

  /** The value a sum in hundredths is stored as. */
  function StoredTotal(total: int): (r: int)
    ensures Normalized(Some(Decimal(total, 2)), MAX_MAN_DAYS, r)
  {
    if total < 0 then 0 else if total > MAX_MAN_DAYS then MAX_MAN_DAYS else total
  }

  /** The stored figure equals the true effort of the day exactly when that
   *  effort is within 0..999.99; above that it is capped and under-reports. */
  lemma StoredTotalExactness(total: int)
    requires total >= 0
    ensures StoredTotal(total) == total <==> total <= MAX_MAN_DAYS
    ensures total > MAX_MAN_DAYS ==> StoredTotal(total) < total
  {
  }

  /** `UserDailySchedule.find_or_initialize_by(user_id:, schedule_date:)`,
   *  assign the total and `save!`: the row of that person and day now holds
   *  the normalised total; no other row changes. */
  method SaveTotal(db: Database, user: UserId, date: Date, total: int)
    modifies db`personTotals
    ensures db.personTotals == old(db.personTotals)[(user, date) := StoredTotal(total)]
  {
    var rounded := RoundTotalTo2dp(Some(Decimal(total, 2)));
    NormalizedInRange(Some(Decimal(total, 2)), MAX_MAN_DAYS, rounded);
    db.personTotals := db.personTotals[(user, date) := rounded];
  }
}
