/**
 * `cleanup_old_files` of model_utils.py: one pass over the upload folder's
 * listing that removes every regular file older than the age limit, and
 * carries on past a removal that fails.
 *
 * The folder is its listing, the clock reading is `now`, and the names
 * whose `os.remove` would raise are the set `failing`.
 */
module Cleanup {

  /** A directory entry: its name, whether it is a regular file, its modification time in seconds. */
  datatype Entry = Entry(name: string, isFile: bool, mtime: real)

  const DefaultMaxAgeHours: real := 24.0
  const SecondsPerHour: real := 3600.0

  /** A regular file whose age is strictly greater than the limit. */
  predicate Expired(e: Entry, now: real, maxAgeHours: real)
  {
    e.isFile && now - e.mtime > maxAgeHours * SecondsPerHour
  }

  /** Whether the pass deletes `e`: it has expired and its removal does not fail. */
  predicate Removed(e: Entry, now: real, maxAgeHours: real, failing: set<string>)
  {
    Expired(e, now, maxAgeHours) && e.name !in failing
  }

  /** The listing after the pass: the entries not removed, in their listed order. */
  function Survivors(listing: seq<Entry>, now: real, maxAgeHours: real, failing: set<string>): (r: seq<Entry>)
    ensures |r| <= |listing|
  {
    if listing == [] then []
    else
      var e := listing[|listing| - 1];
      Survivors(listing[..|listing| - 1], now, maxAgeHours, failing)
        + (if Removed(e, now, maxAgeHours, failing) then [] else [e])
  }

  /**
   * The pass removes exactly the expired files whose removal succeeds: every
   * other entry (a newer file, one exactly at the limit, a directory, a file
   * that could not be removed) is still there, and nothing else is.
   */
  lemma {:induction false} SurvivorsExactly(
    listing: seq<Entry>, now: real, maxAgeHours: real, failing: set<string>, e: Entry)
    ensures e in Survivors(listing, now, maxAgeHours, failing)
        <==> e in listing && !Removed(e, now, maxAgeHours, failing)
  {
    if listing != [] {
      var init := listing[..|listing| - 1];
      SurvivorsExactly(init, now, maxAgeHours, failing, e);
      assert listing == init + [listing[|listing| - 1]];
    }
  }

  /** A file exactly as old as the limit is kept. */
  lemma {:induction false} AtLimitKept(listing: seq<Entry>, now: real, maxAgeHours: real, failing: set<string>, e: Entry)
    requires e in listing && now - e.mtime == maxAgeHours * SecondsPerHour
    ensures e in Survivors(listing, now, maxAgeHours, failing)
  {
    SurvivorsExactly(listing, now, maxAgeHours, failing, e);
  }

  /**
   * A removal that fails affects only the entry it was for: the pass run
   * with failures keeps what it keeps without them, plus the expired files
   * whose removal failed.
   */
  lemma {:induction false} FailuresAreIsolated(
    listing: seq<Entry>, now: real, maxAgeHours: real, failing: set<string>, e: Entry)
    ensures e in Survivors(listing, now, maxAgeHours, failing)
        <==> e in Survivors(listing, now, maxAgeHours, {})
             || (e in listing && Expired(e, now, maxAgeHours) && e.name in failing)
  {
    SurvivorsExactly(listing, now, maxAgeHours, failing, e);
    SurvivorsExactly(listing, now, maxAgeHours, {}, e);
  }

  /**
   * `cleanup_old_files(folder_path, max_age_hours=24)`, returning the folder's
   * listing afterwards.
   */
  method CleanupOldFiles(
    listing: seq<Entry>, now: real, failing: set<string>, maxAgeHours: real := DefaultMaxAgeHours)
    returns (remaining: seq<Entry>)
    ensures remaining == Survivors(listing, now, maxAgeHours, failing)
    ensures forall e :: e in remaining <==> e in listing && !Removed(e, now, maxAgeHours, failing)
  {
    var maxAgeSeconds := maxAgeHours * SecondsPerHour;
    remaining := [];
    var i := 0;
    while i < |listing|
      invariant 0 <= i <= |listing|
      invariant remaining == Survivors(listing[..i], now, maxAgeHours, failing)
    {
      var entry := listing[i];
      var kept := true;
      if entry.isFile {
        var fileAge := now - entry.mtime;
        if fileAge > maxAgeSeconds {
          // os.remove; when it raises, the error is caught and the file stays
          kept := entry.name in failing;
        }
      }
      if kept {
        remaining := remaining + [entry];
      }
      assert listing[..i + 1][..i] == listing[..i];
      i := i + 1;
    }
    assert listing[..i] == listing;
    forall e
      ensures e in remaining <==> e in listing && !Removed(e, now, maxAgeHours, failing)
    {
      SurvivorsExactly(listing, now, maxAgeHours, failing, e);
    }
  }
}
