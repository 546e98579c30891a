/** What is loaded after any history of saves, and the invariant of the store that every save keeps. */
module DailyRuns {
  import opened Options
  import opened DailyTables
  import opened DailySteps

  // ----- the invariant -----

  /** Every session and file row belongs to an app, and no two files of an app share an ordinal. */
  ghost predicate StoreOk(t: Tables) {
    && (forall k :: k in t.sessions ==> AppKey(k.date, k.exe) in t.apps)
    && (forall k :: k in t.files ==> AppKey(k.date, k.exe) in t.apps)
    && (forall date :: DistinctOrdinals(t, date))
  }

  lemma OrdinalsElsewhere(before: Tables, after: Tables, s: Snapshot, nowMs: nat, date: Date)
    requires Replaced(before, after, s, nowMs) && DistinctOrdinals(before, date) && date != s.date
    ensures DistinctOrdinals(after, date)
  {
  }

  lemma ReplaceKeepsOk(before: Tables, after: Tables, s: Snapshot, nowMs: nat)
    requires Replaced(before, after, s, nowMs) && StoreOk(before)
    ensures StoreOk(after)
  {
    forall date ensures DistinctOrdinals(after, date) {
      if date == s.date {
        SavedOrdinalsDistinct(before, after, s, nowMs);
      } else {
        OrdinalsElsewhere(before, after, s, nowMs, date);
      }
    }
  }

  // ----- histories of saves -----

  datatype Save = Save(snapshot: Snapshot, nowMs: nat)

  /** `states` are the tables before the first save and after each. */
  ghost predicate IsHistory(states: seq<Tables>, saves: seq<Save>) {
    && |states| == |saves| + 1
    && forall i :: 0 <= i < |saves| ==> Replaced(states[i], states[i + 1], saves[i].snapshot, saves[i].nowMs)
  }

  /** The last snapshot saved of a day. */
  function LastSaved(saves: seq<Save>, date: Date): Option<Snapshot> {
    if saves == [] then None
    else if saves[|saves| - 1].snapshot.date == date then Some(saves[|saves| - 1].snapshot)
    else LastSaved(saves[..|saves| - 1], date)
  }

  lemma EarlierHistory(states: seq<Tables>, saves: seq<Save>)
    requires IsHistory(states, saves) && saves != []
    ensures var n := |saves| - 1;
            && IsHistory(states[..n + 1], saves[..n])
            && states[..n + 1][0] == states[0]
            && states[..n + 1][|saves[..n]|] == states[n]
  {
  }

  lemma {:induction false} HistoryKeepsOk(states: seq<Tables>, saves: seq<Save>)
    requires IsHistory(states, saves) && StoreOk(states[0])
    ensures StoreOk(states[|saves|])
  {
    if saves != [] {
      var n := |saves| - 1;
      EarlierHistory(states, saves);
      HistoryKeepsOk(states[..n + 1], saves[..n]);
      ReplaceKeepsOk(states[n], states[n + 1], saves[n].snapshot, saves[n].nowMs);
    }
  }

  lemma LoadAfterSave(before: Tables, after: Tables, save: Save, date: Date, r: Option<Snapshot>)
    requires Replaced(before, after, save.snapshot, save.nowMs) && Loaded(after, date, r)
    ensures if save.snapshot.date == date then r == Some(Normalized(save.snapshot)) else Loaded(before, date, r)
  {
    if save.snapshot.date == date {
      LoadAfterReplace(before, after, save.snapshot, save.nowMs, r);
    } else {
      OtherDaysUntouched(before, after, save.snapshot, save.nowMs, date, r);
    }
  }

  /** Whatever saves of whatever days came before and after, a day loads as the last snapshot saved of it;
      a day never saved loads as it did at first. */
  lemma {:induction false} LoadAfterHistory(states: seq<Tables>, saves: seq<Save>, date: Date, r: Option<Snapshot>)
    requires IsHistory(states, saves) && Loaded(states[|saves|], date, r)
    ensures match LastSaved(saves, date)
            case Some(s) => r == Some(Normalized(s))
            case None => Loaded(states[0], date, r)
  {
    if saves != [] {
      var n := |saves| - 1;
      LoadAfterSave(states[n], states[n + 1], saves[n], date, r);
      if saves[n].snapshot.date != date {
        EarlierHistory(states, saves);
        LoadAfterHistory(states[..n + 1], saves[..n], date, r);
      }
    }
  }

  // ----- revisions -----

  function SavesOf(saves: seq<Save>, date: Date): nat {
    if saves == [] then 0
    else SavesOf(saves[..|saves| - 1], date) + if saves[|saves| - 1].snapshot.date == date then 1 else 0
  }

  function RevisionOf(t: Tables, date: Date): nat {
    if date in t.headers then t.headers[date].revision else 0
  }

  /** The header of a day counts its saves, up to the largest 64-bit number; a day not saved keeps its header. */
  lemma {:induction false} RevisionCounts(states: seq<Tables>, saves: seq<Save>, date: Date)
    requires IsHistory(states, saves)
    ensures var first, last, n := states[0], states[|saves|], SavesOf(saves, date);
            if n == 0 then
              && (date in last.headers <==> date in first.headers)
              && (date in last.headers ==> last.headers[date] == first.headers[date])
            else
              && date in last.headers
              && last.headers[date].revision ==
                   if RevisionOf(first, date) + n < 18446744073709551615 then RevisionOf(first, date) + n
                   else 18446744073709551615
  {
    if saves != [] {
      var n := |saves| - 1;
      EarlierHistory(states, saves);
      RevisionCounts(states[..n + 1], saves[..n], date);
    }
  }

  /** Save `i` is the last of the day. */
  ghost predicate LastSaveAt(saves: seq<Save>, date: Date, i: int) {
    0 <= i < |saves| && saves[i].snapshot.date == date && forall j :: i < j < |saves| ==> saves[j].snapshot.date != date
  }

  /** The rest of the header is from the last save of the day. */
  lemma {:induction false} HeaderOfLastSave(states: seq<Tables>, saves: seq<Save>, date: Date, i: int)
    requires IsHistory(states, saves) && LastSaveAt(saves, date, i)
    ensures date in states[|saves|].headers
    ensures states[|saves|].headers[date].updatedMs == saves[i].nowMs
    ensures states[|saves|].headers[date].generatedAt == saves[i].snapshot.generatedAt
  {
    var n := |saves| - 1;
    if i != n {
      EarlierHistory(states, saves);
      HeaderOfLastSave(states[..n + 1], saves[..n], date, i);
    }
  }

  /** Two states between which a day was saved have different revisions of it, and so different signatures, until the
      numbers are used up. */
  lemma RevisionTells(states: seq<Tables>, saves: seq<Save>, i: nat, j: nat, date: Date)
    requires IsHistory(states, saves) && i <= j <= |saves| && SavesOf(saves[i..j], date) > 0
    requires RevisionOf(states[i], date) < 18446744073709551615
    ensures date in states[j].headers && RevisionOf(states[i], date) < RevisionOf(states[j], date)
    ensures SignatureOf(states[i], date) != SignatureOf(states[j], date)
  {
    var part, between := states[i..j + 1], saves[i..j];
    forall n | 0 <= n < |between| ensures Replaced(part[n], part[n + 1], between[n].snapshot, between[n].nowMs) {
      assert part[n] == states[i + n] && part[n + 1] == states[i + n + 1] && between[n] == saves[i + n];
    }
    RevisionCounts(part, between, date);
  }

  /** From sound tables, such as empty ones, any two loads of a day after any saves agree: loading the day
      alone or within a range, for one. */
  lemma LoadsAgree(states: seq<Tables>, saves: seq<Save>, date: Date, a: Option<Snapshot>, b: Option<Snapshot>)
    requires IsHistory(states, saves) && StoreOk(states[0])
    requires Loaded(states[|saves|], date, a) && Loaded(states[|saves|], date, b)
    ensures a == b
  {
    HistoryKeepsOk(states, saves);
    LoadedUnique(states[|saves|], date, a, b);
  }

  lemma EmptyIsOk()
    ensures StoreOk(Tables(map[], map[], map[], map[]))
  {
  }
}
