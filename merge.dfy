/**
 * The two hand-offs of `busdatagenerator.py` around the staging file:
 * `update_database` with the gate of `main_update_database`, which decides
 * whether the staging file may be deleted once its registers are merged, and
 * `get_auto`, which fetches the server's file and only then asks the server to
 * delete its copy.
 */
module Merge {
  import opened Wrappers
  import opened DateTimes
  import opened Registers
  import opened StagingCsv
  import opened Database
  import opened Downloading

  datatype UpdateError = LoadFailed(load: LoadError) | InsertFailed(insert: DbError)

  /** What `update_database` returns: `(new registers, registers saved, True)`, or what it raises. */
  function Updated(loaded: Result<seq<Register>, LoadError>, t: map<Id, Register>, sha1: Digest)
    : Result<(nat, nat, bool), UpdateError>
  {
    match loaded
    case Err(e) => Err(LoadFailed(e))
    case Ok(data) =>
      var total := |NewRegisters(data, t.Keys, sha1)|;
      match Insert(t, data, sha1)
      case Err(e) => Err(InsertFailed(e))
      case Ok(after) => Ok((total, after.1, true))
  }

  /** The committed table once `update_database` has run. */
  function TableAfterUpdate(loaded: Result<seq<Register>, LoadError>, t: map<Id, Register>, sha1: Digest)
    : map<Id, Register>
  {
    match loaded
    case Err(_) => t
    case Ok(data) => if Insert(t, data, sha1).Ok? then Insert(t, data, sha1).value.0 else t
  }

  /**
   * `update_database()`: the staged registers, the number whose identifier is
   * not stored yet, and the number the insert reports.
   */
  method UpdateDatabase(file: StagingFile, db: DataBase, sha1: Digest) returns (r: Result<(nat, nat, bool), UpdateError>)
    modifies db
    ensures r == Updated(LoadedRegisters(file.content), old(db.table), sha1)
    ensures db.table == TableAfterUpdate(LoadedRegisters(file.content), old(db.table), sha1)
  {
    var loaded := LoadRegisters(file);
    if loaded.Err? {
      return Err(LoadFailed(loaded.error));
    }
    r := MergeLoaded(loaded.value, db, sha1);
  }

  /** The part of `update_database()` after `load_registers()` returned `data`. */
  method MergeLoaded(data: seq<Register>, db: DataBase, sha1: Digest) returns (r: Result<(nat, nat, bool), UpdateError>)
    modifies db
    ensures r == Updated(Ok(data), old(db.table), sha1)
    ensures db.table == TableAfterUpdate(Ok(data), old(db.table), sha1)
  {
    ghost var t0 := db.table;
    var savedIds := db.GetIds();
    var total := |NewRegisters(data, savedIds, sha1)|;
    db.Use();
    var saved := db.InsertMultipleRegisters(data, sha1);
    if saved.Err? {
      assert Insert(t0, data, sha1).error == saved.error;
      return Err(InsertFailed(saved.error));
    }
    return Ok((total, saved.value, true));
  }

  /** Whenever `update_database` returns, the two counts agree and the token is set. */
  lemma UpdateCountsAgree(loaded: Result<seq<Register>, LoadError>, t: map<Id, Register>, sha1: Digest)
    requires Updated(loaded, t, sha1).Ok?
    ensures var (total, saved, token) := Updated(loaded, t, sha1).value; total == saved && token
  {
  }

  /** The gate of `main_update_database`. */
  predicate RemovesStaging(total: int, saved: int, token: bool)
  {
    total == saved && token
  }

  /** Where a `KeyboardInterrupt` reaches `main_update_database`, if at all. */
  datatype Interrupt = NoInterrupt | BeforeUpdate | AfterUpdate

  /** The gate's decision and the exception that leaves `main_update_database`, if any. */
  datatype MainOutcome = MainOutcome(removed: bool, raised: Option<UpdateError>)

  /**
   * `main_update_database()`: the counts start at 0 and the token at `False`;
   * they change only when `update_database` returns. The `finally` block then
   * deletes the staging file exactly when the gate holds, whether or not the
   * update raised or was interrupted.
   */
  method MainUpdateDatabase(file: StagingFile, db: DataBase, sha1: Digest, interrupt: Interrupt)
    returns (outcome: MainOutcome)
    modifies file, db
    ensures outcome.removed <==> interrupt == NoInterrupt && Updated(LoadedRegisters(old(file.content)), old(db.table), sha1).Ok?
    ensures file.content == if outcome.removed then None else old(file.content)
    ensures db.table == if interrupt == BeforeUpdate then old(db.table)
                        else TableAfterUpdate(LoadedRegisters(old(file.content)), old(db.table), sha1)
    ensures outcome.raised.Some? <==> interrupt == NoInterrupt && Updated(LoadedRegisters(old(file.content)), old(db.table), sha1).Err?
  {
    var total, saved, secureToken := 0, 0, false;
    var raised: Option<UpdateError> := None;
    if interrupt != BeforeUpdate {
      var r := UpdateDatabase(file, db, sha1);
      if interrupt == NoInterrupt {
        if r.Ok? {
          UpdateCountsAgree(LoadedRegisters(old(file.content)), old(db.table), sha1);
          total, saved, secureToken := r.value.0, r.value.1, r.value.2;
        } else {
          raised := Some(r.error);
        }
      }
    }
    var removed := RemovesStaging(total, saved, secureToken);
    if removed {
      file.content := None;
    }
    outcome := MainOutcome(removed, raised);
  }

  /**
   * Merging a file that `save_registers` wrote, over a table that holds none
   * of its identifiers: the gate holds and the file goes, yet only the
   * registers after the first reach the table, so the first is lost.
   */
  lemma MergeLosesFirstRegister(rs: seq<Register>, t: map<Id, Register>, sha1: Digest)
    requires rs != [] && AllPlain(rs) && DistinctIds(rs, sha1)
    requires forall k :: 0 <= k < |rs| ==> IdOf(rs[k], sha1) !in t
    ensures Updated(LoadedRegisters(Some(CsvText(rs))), t, sha1) == Ok((|rs| - 1, |rs| - 1, true))
    ensures TableAfterUpdate(LoadedRegisters(Some(CsvText(rs))), t, sha1) == t + Rows(rs[1..], sha1)
    ensures IdOf(rs[0], sha1) !in TableAfterUpdate(LoadedRegisters(Some(CsvText(rs))), t, sha1)
  {
    LoadAfterSaveRest(rs);
    var rest := rs[1..];
    DistinctIdsTail(rs, sha1);
    UpdatedAllNew(t, rest, sha1);
    NotInIds(rest, IdOf(rs[0], sha1), sha1);
  }

  /**
   * With the load that keeps the first row, the same merge stores every saved
   * register and the gate still lets the file go.
   */
  lemma MergeIntendedKeepsAll(rs: seq<Register>, t: map<Id, Register>, sha1: Digest)
    requires AllPlain(rs) && DistinctIds(rs, sha1)
    requires forall k :: 0 <= k < |rs| ==> IdOf(rs[k], sha1) !in t
    ensures Updated(LoadedRegistersIntended(Some(CsvText(rs))), t, sha1) == Ok((|rs|, |rs|, true))
    ensures TableAfterUpdate(LoadedRegistersIntended(Some(CsvText(rs))), t, sha1) == t + Rows(rs, sha1)
  {
    LoadIntendedAfterSave(rs);
    UpdatedAllNew(t, rs, sha1);
  }

  /** Merging a batch of distinct, new identifiers reports and stores all of it. */
  lemma UpdatedAllNew(t: map<Id, Register>, vs: seq<Register>, sha1: Digest)
    requires DistinctIds(vs, sha1)
    requires forall k :: 0 <= k < |vs| ==> IdOf(vs[k], sha1) !in t
    ensures Updated(Ok(vs), t, sha1) == Ok((|vs|, |vs|, true))
    ensures TableAfterUpdate(Ok(vs), t, sha1) == t + Rows(vs, sha1)
  {
    NewRegistersAllAbsent(vs, t.Keys, sha1);
    InsertAllNew(t, vs, sha1);
    var after := Insert(t, vs, sha1);
    assert after.value == (t + Rows(vs, sha1), |vs|);
  }

  /** Dropping the first register keeps the identifiers distinct and absent. */
  lemma DistinctIdsTail(rs: seq<Register>, sha1: Digest)
    requires rs != [] && DistinctIds(rs, sha1)
    ensures DistinctIds(rs[1..], sha1)
    ensures forall k :: 0 <= k < |rs| - 1 ==> IdOf(rs[1..][k], sha1) != IdOf(rs[0], sha1)
  {
    var rest := rs[1..];
    forall i, j | 0 <= i < j < |rest|
      ensures IdOf(rest[i], sha1) != IdOf(rest[j], sha1)
    {
      assert rest[i] == rs[i + 1] && rest[j] == rs[j + 1];
    }
  }

  /** A batch of distinct identifiers none of which is stored goes in whole. */
  lemma InsertAllNew(t: map<Id, Register>, vs: seq<Register>, sha1: Digest)
    requires DistinctIds(vs, sha1)
    requires forall k :: 0 <= k < |vs| ==> IdOf(vs[k], sha1) !in t
    ensures Insert(t, vs, sha1) == Ok((t + Rows(vs, sha1), |vs|))
  {
    NewRegistersAllAbsent(vs, t.Keys, sha1);
    ExecuteManyOk(t, vs, sha1);
  }

  /** When no identifier is stored, the filter keeps every register. */
  lemma {:induction false} NewRegistersAllAbsent(data: seq<Register>, ids: set<Id>, sha1: Digest)
    requires forall k :: 0 <= k < |data| ==> IdOf(data[k], sha1) !in ids
    ensures NewRegisters(data, ids, sha1) == data
  {
    if data != [] {
      NewRegistersAllAbsent(data[..|data| - 1], ids, sha1);
    }
  }

  // ---------------------------------------------------------------------------
  // get_auto

  /** Whether writing the fetched bytes to the staging path succeeded. */
  datatype WriteOutcome = Written | WriteFailed

  /** What `get_auto` did: the download raised, or it got a status and maybe sent a delete request. */
  datatype AutoOutcome = FetchRaised(failure: Failure) | Fetched(status: int, deleteToken: Option<Date>)

  /**
   * `get_auto()`: download the server's file with the retrying downloader;
   * on status 200 write it over the staging file, and only if that write
   * succeeded send the delete request carrying today's `(year, month, day)`.
   */
  method GetAuto(file: StagingFile, attempt: Attempts, write: WriteOutcome, today: Date) returns (outcome: AutoOutcome)
    modifies file
    ensures var fetched := Run(DefaultRetries, 0, attempt).0;
      (fetched.Err? ==> outcome == FetchRaised(fetched.error) && file.content == old(file.content))
      && (fetched.Ok? ==>
            outcome.Fetched? && outcome.status == fetched.value.status
            && if fetched.value.status == 200 && write == Written
               then file.content == Some(fetched.value.content) && outcome.deleteToken == Some(today)
               else file.content == old(file.content) && outcome.deleteToken == None)
  {
    var downloader := new Downloader(DefaultRetries);
    var fileRequest, _ := downloader.Send(Get, attempt);
    if fileRequest.Err? {
      return FetchRaised(fileRequest.error);
    }
    var response := fileRequest.value;
    if response.status == 200 {
      if write == WriteFailed {
        return Fetched(200, None);
      }
      file.content := Some(response.content);
      return Fetched(200, Some(today));
    }
    return Fetched(response.status, None);
  }
}
