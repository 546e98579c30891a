/** The slave's side of step 12: handle_db_ready imports the uploaded file and answers with
    its own marker; a retry after a lost answer is replayed.
 */
module SyncSlave {
  import opened Options
  import opened SyncTypes
  import opened SyncMerge
  import opened SyncRepair
  import opened SyncDatabase
  import opened SyncGc

  /** `path` names the uploaded file, `master` the device that asks. */
  datatype Request = Request(marker: string, path: string, master: string)

  /** What the handler takes from its surroundings: the clock during the import and again when the marker is made, the
      hash it generates, and whether the backup, the integrity check and the marker insert succeed. */
  datatype Env = Env(now: Time, markedAt: Time, ownMarker: string, backupOk: bool, integrityOk: bool, insertOk: bool)

  datatype Stage = NoFile | Backup | Merge | Verify | Marker

  datatype Response = Ready(marker: string) | Failed(stage: Stage)

  /** An uploaded file that does not parse holds None. */
  datatype Slave = Slave(
    db: Db,
    files: map<string, Option<Payload>>,
    device: string,
    markers: seq<SyncMarker>,
    lastReady: Option<(string, string)>
  )

  /** completed_db_ready_for */
  function Completed(s: Slave, marker: string): Option<string> {
    if s.lastReady.Some? && s.lastReady.value.0 == marker then Some(s.lastReady.value.1) else None
  }

  predicate Importable(db: Db, archive: Option<Payload>, env: Env) {
    archive.Some? && !MergeFails(db, archive.value, env.now)
  }

  function Imported(s: Slave, req: Request, env: Env): Slave
    requires req.path in s.files && Importable(s.db, s.files[req.path], env)
  {
    s.(db := Repaired(Merged(s.db, s.files[req.path].value, env.now), env.now), files := s.files - {req.path})
  }

  function OwnMarker(device: string, req: Request, env: Env): SyncMarker {
    SyncMarker(env.ownMarker, env.markedAt, device, Some(req.master))
  }

  function MastersMarker(device: string, req: Request, env: Env): SyncMarker {
    SyncMarker(req.marker, env.markedAt, req.master, Some(device))
  }

  function DbReady(s: Slave, req: Request, env: Env): (Slave, Response) {
    if req.marker != "" && Completed(s, req.marker).Some? then (s, Ready(Completed(s, req.marker).value))
    else if req.path !in s.files then (s, Failed(NoFile))
    else if !env.backupOk then (s, Failed(Backup))
    else if !Importable(s.db, s.files[req.path], env) then (s, Failed(Merge))
    else if !env.integrityOk then (s, Failed(Verify))
    else if !env.insertOk then (Imported(s, req, env), Failed(Marker))
    else
      var done := Imported(s, req, env).(markers := s.markers + [OwnMarker(s.device, req, env)]);
      if req.marker == "" then (done, Ready(env.ownMarker))
      else (done.(markers := done.markers + [MastersMarker(s.device, req, env)],
                  lastReady := Some((req.marker, env.ownMarker))),
            Ready(env.ownMarker))
  }

  /** The same request again and again, whatever happens around it. */
  function Serve(s: Slave, req: Request, envs: seq<Env>): Slave {
    if envs == [] then s else DbReady(Serve(s, req, envs[..|envs| - 1]), req, envs[|envs| - 1]).0
  }

  /** The slave imports at most once: after any number of requests it is as before the first
      or as after one of them, the first that got as far as the import. */
  lemma {:induction false} ImportsAtMostOnce(s: Slave, req: Request, envs: seq<Env>)
    ensures Serve(s, req, envs) == s || exists i :: 0 <= i < |envs| && Serve(s, req, envs) == DbReady(s, req, envs[i]).0
    ensures Serve(s, req, envs) != s ==>
              req.path !in Serve(s, req, envs).files ||
                  (req.marker != "" && Completed(Serve(s, req, envs), req.marker).Some?)
  {
    if envs != [] {
      var init, last := envs[..|envs| - 1], |envs| - 1;
      ImportsAtMostOnce(s, req, init);
      if Serve(s, req, init) == s {
        assert Serve(s, req, envs) == DbReady(s, req, envs[last]).0;
      } else {
        var i :| 0 <= i < |init| && Serve(s, req, init) == DbReady(s, req, init[i]).0;
        assert envs[i] == init[i];
      }
    }
  }

  /** A request gets as far as the import. */
  predicate Imports(s: Slave, req: Request, env: Env) {
    && (req.marker == "" || Completed(s, req.marker).None?)
    && req.path in s.files
    && env.backupOk && Importable(s.db, s.files[req.path], env) && env.integrityOk
  }

  /** Exactly such a request takes the file and merges it; every other leaves the slave as it was, and all but a
      replay are told so. */
  lemma ImportsIff(s: Slave, req: Request, env: Env)
    ensures var (done, answer) := DbReady(s, req, env);
            && (Imports(s, req, env) <==> req.path in s.files && req.path !in done.files)
            && (Imports(s, req, env) ==>
                  && s.files[req.path].Some?
                  && done.db == Repaired(Merged(s.db, s.files[req.path].value, env.now), env.now))
            && (!Imports(s, req, env) ==>
                  done == s && (answer.Ready? <==> req.marker != "" && Completed(s, req.marker).Some?))
  {
  }

  /** Once a request has imported the upload the slave never moves again for it. A retry gets the answer that was
      lost exactly if the request carries a marker and the slave could insert its own; else it is told that there
      is no file, for ever. */
  lemma {:induction false} ImportIsFinal(s: Slave, req: Request, env: Env, envs: seq<Env>, retry: Env)
    requires Imports(s, req, env)
    ensures var (done, answer) := DbReady(s, req, env);
            && Serve(done, req, envs) == done
            && answer == (if env.insertOk then Ready(env.ownMarker) else Failed(Marker))
            && DbReady(done, req, retry).1 == (if env.insertOk && req.marker != "" then answer else Failed(NoFile))
  {
    if envs != [] {
      ImportIsFinal(s, req, env, envs[..|envs| - 1], retry);
    }
  }

  /** Request `i` is the first that imports. */
  ghost predicate FirstImport(s: Slave, req: Request, envs: seq<Env>, i: int) {
    0 <= i < |envs| && Imports(s, req, envs[i]) && forall j :: 0 <= j < i ==> !Imports(s, req, envs[j])
  }

  ghost predicate NoImport(s: Slave, req: Request, envs: seq<Env>) {
    forall i :: 0 <= i < |envs| ==> !Imports(s, req, envs[i])
  }

  /** The answer to request `j` of the series. */
  function Answer(s: Slave, req: Request, envs: seq<Env>, j: nat): Response
    requires j < |envs|
  {
    DbReady(Serve(s, req, envs[..j]), req, envs[j]).1
  }

  lemma {:induction false} FirstImportExists(s: Slave, req: Request, envs: seq<Env>)
    requires !NoImport(s, req, envs)
    ensures exists i :: FirstImport(s, req, envs, i)
  {
    var init := envs[..|envs| - 1];
    assert forall j :: 0 <= j < |init| ==> init[j] == envs[j];
    if NoImport(s, req, init) {
      assert FirstImport(s, req, envs, |envs| - 1);
    } else {
      FirstImportExists(s, req, init);
      var i :| FirstImport(s, req, init, i);
      assert FirstImport(s, req, envs, i);
    }
  }

  lemma {:induction false} ServedWithoutImport(s: Slave, req: Request, envs: seq<Env>)
    requires req.marker == "" || Completed(s, req.marker).None?
    requires NoImport(s, req, envs)
    ensures Serve(s, req, envs) == s
  {
    if envs != [] {
      var init := envs[..|envs| - 1];
      assert forall j :: 0 <= j < |init| ==> init[j] == envs[j];
      ServedWithoutImport(s, req, init);
    }
  }

  lemma {:induction false} ServedAfterImport(s: Slave, req: Request, envs: seq<Env>, i: int)
    requires req.marker == "" || Completed(s, req.marker).None?
    requires FirstImport(s, req, envs, i)
    ensures Serve(s, req, envs) == DbReady(s, req, envs[i]).0
  {
    var init, last := envs[..|envs| - 1], |envs| - 1;
    assert forall j :: 0 <= j < |init| ==> init[j] == envs[j];
    if i == last {
      ServedWithoutImport(s, req, init);
    } else {
      ServedAfterImport(s, req, init, i);
      ImportIsFinal(s, req, envs[i], [envs[last]], envs[last]);
      assert [envs[last]][..0] == [];
    }
  }

  /** Where the slave is after some requests: where it was, or where the first import left it. */
  lemma ServedState(s: Slave, req: Request, envs: seq<Env>)
    requires req.marker == "" || Completed(s, req.marker).None?
    ensures NoImport(s, req, envs) ==> Serve(s, req, envs) == s
    ensures forall i :: FirstImport(s, req, envs, i) ==> Serve(s, req, envs) == DbReady(s, req, envs[i]).0
    ensures NoImport(s, req, envs) || exists i :: FirstImport(s, req, envs, i)
  {
    if NoImport(s, req, envs) {
      ServedWithoutImport(s, req, envs);
    } else {
      FirstImportExists(s, req, envs);
    }
    forall i | FirstImport(s, req, envs, i) ensures Serve(s, req, envs) == DbReady(s, req, envs[i]).0 {
      ServedAfterImport(s, req, envs, i);
    }
  }

  lemma AnswerIs(s: Slave, req: Request, envs: seq<Env>, j: nat)
    requires (req.marker == "" || Completed(s, req.marker).None?) && j < |envs|
    ensures Answer(s, req, envs, j).Ready? ==> exists i :: FirstImport(s, req, envs, i) && envs[i].insertOk
    ensures FirstImport(s, req, envs, j) && envs[j].insertOk ==> Answer(s, req, envs, j).Ready?
  {
    var init := envs[..j];
    ServedState(s, req, init);
    if NoImport(s, req, init) {
      assert forall k :: 0 <= k < j ==> init[k] == envs[k];
    } else {
      var i :| FirstImport(s, req, init, i);
      assert forall k :: 0 <= k <= i ==> init[k] == envs[k];
      assert FirstImport(s, req, envs, i);
      ImportIsFinal(s, req, envs[i], [], envs[j]);
    }
  }

  /** Any number of requests leaves the slave as it was or as after the first that imported, and one of them
      is answered with success exactly if that one could insert its marker. */
  lemma RetriesAreHarmless(s: Slave, req: Request, envs: seq<Env>)
    requires req.marker == "" || Completed(s, req.marker).None?
    ensures || (NoImport(s, req, envs) && Serve(s, req, envs) == s)
            || exists i :: FirstImport(s, req, envs, i) && Serve(s, req, envs) == DbReady(s, req, envs[i]).0
    ensures (exists j :: 0 <= j < |envs| && Answer(s, req, envs, j).Ready?) <==>
            (exists i :: FirstImport(s, req, envs, i) && envs[i].insertOk)
  {
    ServedState(s, req, envs);
    forall j | 0 <= j < |envs|
      ensures Answer(s, req, envs, j).Ready? ==> exists i :: FirstImport(s, req, envs, i) && envs[i].insertOk
      ensures FirstImport(s, req, envs, j) && envs[j].insertOk ==> Answer(s, req, envs, j).Ready?
    {
      AnswerIs(s, req, envs, j);
    }
  }

  ghost function Unfrozen(s: Slave, paired: seq<string>, ageLimit: Time): Slave {
    s.(db := s.db.(tombstones := Remembered(s.db.tombstones, s.markers, paired, ageLimit)))
  }

  class SlaveServer {
    const db: Database
    const device: string
    var files: map<string, Option<Payload>>
    var markers: seq<SyncMarker>
    var lastReady: Option<(string, string)>

    ghost function State(): Slave
      reads this, db
    {
      Slave(db.State(), files, device, markers, lastReady)
    }

    constructor (db: Database, device: string, files: map<string, Option<Payload>>)
      ensures this.db == db && State() == Slave(db.State(), files, device, [], None)
    {
      this.db, this.device, this.files, this.markers, this.lastReady := db, device, files, [], None;
    }

    /** handle_upload_db: the master's export under a new file name. */
    method HandleUploadDb(path: string, archive: Payload)
      modifies this`files
      ensures State() == old(State()).(files := old(files)[path := Some(archive)])
    {
      files := files[path := Some(archive)];
    }

    method HandleDbReady(req: Request, env: Env) returns (response: Response)
      modifies this, db
      ensures (State(), response) == DbReady(old(State()), req, env)
    {
      if req.marker != "" && lastReady.Some? && lastReady.value.0 == req.marker {
        return Ready(lastReady.value.1);
      }
      if req.path !in files {
        return Failed(NoFile);
      }
      if !env.backupOk {
        return Failed(Backup);
      }
      var backup := db.Snapshot();
      var merged := db.MergeIncoming(files[req.path], env.now);
      if !merged {
        db.Restore(backup);
        return Failed(Merge);
      }
      var verified := db.Verify(env.now, env.integrityOk);
      if !verified {
        db.Restore(backup);
        return Failed(Verify);
      }
      files := files - {req.path};
      if !env.insertOk {
        return Failed(Marker);
      }
      markers := markers + [OwnMarker(device, req, env)];
      if req.marker != "" {
        markers := markers + [MastersMarker(device, req, env)];
        lastReady := Some((req.marker, env.ownMarker));
      }
      response := Ready(env.ownMarker);
    }

    /** handle_unfreeze: the cycle is over, and deletions that have reached every peer are forgotten. */
    method HandleUnfreeze(paired: seq<string>, ageLimit: Time)
      modifies db
      ensures State() == Unfrozen(old(State()), paired, ageLimit)
    {
      var kept := GcTombstones(db.tombstones, markers, paired, ageLimit);
      db.tombstones := kept;
    }
  }
}
