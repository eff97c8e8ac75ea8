/**
 * The timestamp fields every stored record inherits: `created_at` set when
 * the row is first saved, `updated_at` set on every save, and `deleted_at`,
 * empty unless the explicit soft delete marks it. Times are whole seconds.
 */
module TimeStamps {
  import opened Wrappers

  datatype Stamps = Stamps(createdAt: nat, updatedAt: nat, deletedAt: Option<nat>)

  /** The fields of a row saved for the first time at `now`. */
  function OnCreate(now: nat): (s: Stamps)
    ensures s.createdAt == now && s.updatedAt == now && s.deletedAt == None
  {
    Stamps(now, now, None)
  }

  /** A later full save at `now`: only `updated_at` moves. */
  function OnSave(s: Stamps, now: nat): (r: Stamps)
    ensures r.createdAt == s.createdAt && r.deletedAt == s.deletedAt && r.updatedAt == now
  {
    s.(updatedAt := now)
  }

  /**
   * The soft delete the base class means to provide: `deleted_at := now`,
   * saved with `update_fields=["deleted_at"]`, so `updated_at` stays.
   */
  function SoftDeleted(s: Stamps, now: nat): (r: Stamps)
    ensures r.createdAt == s.createdAt && r.updatedAt == s.updatedAt && r.deletedAt == Some(now)
  {
    s.(deletedAt := Some(now))
  }

  /** The save history of one row: created at `times[0]`, saved again at each later time. */
  function History(times: seq<nat>): Stamps
    requires |times| >= 1
    decreases |times|
  {
    if |times| == 1 then OnCreate(times[0]) else OnSave(History(times[..|times| - 1]), times[|times| - 1])
  }

  /** However many saves follow, `created_at` is the creation time and `updated_at` the last save. */
  lemma {:induction false} HistoryKeepsCreation(times: seq<nat>)
    requires |times| >= 1
    ensures History(times).createdAt == times[0]
    ensures History(times).updatedAt == times[|times| - 1]
    ensures History(times).deletedAt == None
    decreases |times|
  {
    if |times| > 1 {
      HistoryKeepsCreation(times[..|times| - 1]);
    }
  }
}
