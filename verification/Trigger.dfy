/** One trigger request against the table of syncs, from lookup to answer, with nothing in between. */
module Trigger {
  import opened Wrappers

  const AD_HOC := "once"

  datatype SyncRow = SyncRow(user: string, execution: Option<string>, interval: string)

  datatype Response =
    | AlreadyExists(sync: nat)
    | ScheduleNotFound
    | Started(sync: nat)
    | KeyTaken
    | NotStarted

  /** The row an ad-hoc request looks for; the unique index covers exactly these rows. */
  predicate AdHoc(row: SyncRow, user: string, execution: string) {
    row == SyncRow(user, Some(execution), AD_HOC)
  }

  class SyncTable {
    var rows: map<nat, SyncRow>
    var nextId: nat

    constructor ()
      ensures Valid() && rows == map[]
    {
      rows, nextId := map[], 0;
    }

    /** Ids are given out in order, and no two ad-hoc rows of a user share a key. */
    ghost predicate Valid()
      reads this
    {
      && (forall r | r in rows :: r < nextId)
      && forall a, b | a in rows && b in rows && rows[a] == rows[b] &&
                       rows[a].interval == AD_HOC && rows[a].execution.Some? :: a == b
    }

    /** The schedule already carries the key: no other row matters to a request that names a schedule. */
    predicate Resolves(schedule: nat, user: string, execution: string)
      reads this
    {
      schedule in rows && rows[schedule].user == user && rows[schedule].execution == Some(execution)
    }

    /** A trigger request. A schedule that is itself an ad-hoc row cannot take a key another ad-hoc row has.
        The broker may refuse the task, and the clean-up after that may fail. When an existing sync is named, and
        when a refused request is cleaned up, the table is as it was; otherwise one row, and no other, takes the
        key. */
    method TriggerSync(user: string, schedule: Option<nat>, execution: string, accepted: bool, cleaned: bool)
      returns (response: Response)
      requires Valid()
      modifies this
      ensures Valid()
      ensures nextId == old(nextId) + if schedule.None? && (response.Started? || response.NotStarted?) then 1 else 0
      ensures response.AlreadyExists? <==>
                if schedule.Some?
                then && schedule.value in old(rows) && old(rows)[schedule.value].user == user
                     && old(rows)[schedule.value].execution == Some(execution)
                else exists r | r in old(rows) :: old(rows)[r] == SyncRow(user, Some(execution), "once")
      ensures response.AlreadyExists? ==> response.sync in rows && rows[response.sync].user == user &&
                                          rows[response.sync].execution == Some(execution) &&
                                          if schedule.Some? then response.sync == schedule.value
                                          else rows[response.sync].interval == "once"
      ensures response.ScheduleNotFound? <==>
                schedule.Some? && (schedule.value !in old(rows) || old(rows)[schedule.value].user != user)
      ensures response.KeyTaken? <==>
                && schedule.Some? && schedule.value in old(rows) && old(rows)[schedule.value].user == user
                && old(rows)[schedule.value].interval == "once"
                && old(rows)[schedule.value].execution != Some(execution)
                && exists r | r in old(rows) :: old(rows)[r] == SyncRow(user, Some(execution), "once")
      ensures response.Started? || response.NotStarted? ==> (response.Started? <==> accepted)
      ensures !response.Started? && (response.NotStarted? ==> cleaned) ==> rows == old(rows)
      ensures response.Started? || (response.NotStarted? && !cleaned) ==>
                var sync := if schedule.Some? then schedule.value else old(nextId);
                && (schedule.Some? <==> sync in old(rows))
                && rows == old(rows)[sync := if schedule.Some? then old(rows)[sync].(execution := Some(execution))
                                             else SyncRow(user, Some(execution), "once")]
                && (response.Started? ==> response.sync == sync)
    {
      var sync: nat;
      var previous: Option<string> := None;
      if schedule.Some? {
        if Resolves(schedule.value, user, execution) {
          return AlreadyExists(schedule.value);
        }
        if schedule.value !in rows || rows[schedule.value].user != user {
          return ScheduleNotFound;
        }
        if rows[schedule.value].interval == AD_HOC && exists r | r in rows :: AdHoc(rows[r], user, execution) {
          return KeyTaken;
        }
        sync, previous := schedule.value, rows[schedule.value].execution;
        rows := rows[sync := rows[sync].(execution := Some(execution))];
      } else {
        if exists r | r in rows :: AdHoc(rows[r], user, execution) {
          var r :| r in rows && AdHoc(rows[r], user, execution);
          return AlreadyExists(r);
        }
        sync := nextId;
        rows, nextId := rows[sync := SyncRow(user, Some(execution), AD_HOC)], nextId + 1;
      }
      if accepted {
        return Started(sync);
      }
      if cleaned {
        if schedule.None? {
          rows := rows - {sync};
        } else {
          rows := rows[sync := rows[sync].(execution := previous)];
        }
      }
      response := NotStarted;
    }
  }
}
