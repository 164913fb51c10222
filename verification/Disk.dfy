/** How every authored document is written: temp, copy of the replaced file aside, rename, prune. The
  * disk keeps a journal of every state it passes through, so what holds of all of the journal holds
  * wherever a crash stops it. Writing a temp file and copying a backup can tear; a rename cannot.
  */
module Disk {

  import opened Backups
  import opened Text

  datatype File<D> = Torn | Whole(doc: D)

  /** The live documents by path, their temp files by the path they are for, and `.backups` by name. */
  datatype Fs<D> = Fs(live: map<string, File<D>>, temps: map<string, File<D>>, backups: map<string, File<D>>)

  /** Where the operating system refuses, if it does. A clock stuck within one microsecond of an earlier
    * copy needs no fault: the name is taken and the copy is refused. */
  datatype Fault = NoFault | TempFails | CopyFails | InstallFails

  /** What the outside world does during one operation of a store: the clock as the document and as the
    * name of the copy read it, where the disk refuses, and which copies cannot be removed. */
  datatype World = World(clock: string, stamp: string, fault: Fault, stuck: set<string>)

  /** Two maps agree on every key but one. */
  ghost predicate AgreeBut<D(!new)>(a: map<string, File<D>>, b: map<string, File<D>>, key: string) {
    a - {key} == b - {key}
  }

  /** At most one file changed, or one temp file was renamed over its document. */
  ghost predicate OneStep<D(!new)>(a: Fs<D>, b: Fs<D>) {
    || (a.live == b.live && a.backups == b.backups && exists key :: AgreeBut(a.temps, b.temps, key))
    || (a.live == b.live && a.temps == b.temps && exists key :: AgreeBut(a.backups, b.backups, key))
    || (a.backups == b.backups && exists key :: key in a.temps && b.temps == a.temps - {key} && b.live == a.live[key := a.temps[key]])
    || (a.backups == b.backups && a.temps == b.temps && exists key :: b.live == a.live - {key})
  }

  ghost predicate OneStepEach<D(!new)>(journal: seq<Fs<D>>) {
    forall k :: 0 <= k < |journal| - 1 ==> OneStep(journal[k], journal[k + 1])
  }

  /** What one save or removal is for. */
  datatype Change<D> = Put(path: string, doc: D) | Take(path: string)

  function Changed<D>(live: map<string, File<D>>, change: Change<D>): map<string, File<D>> {
    match change
    case Put(path, doc) => live[path := Whole(doc)]
    case Take(path) => live - {path}
  }

  /** A state from which a restart finds the old documents, or those with the whole change made and nothing
    * else touched. */
  ghost predicate OldOrNew<D(!new)>(before: Fs<D>, change: Change<D>, now: Fs<D>) {
    now.live == before.live || now.live == Changed(before.live, change)
  }

  /** The copy of the replaced document is in place while the old document is still live. */
  ghost predicate CopyMade<D(!new)>(before: Fs<D>, path: string, name: string, now: Fs<D>) {
    now.live == before.live && path in before.live && name in now.backups && now.backups[name] == before.live[path]
  }

  /** Along a journal, the new document never goes live over an old one before the copy is made. */
  ghost predicate CopyFirst<D(!new)>(before: Fs<D>, path: string, name: string, journal: seq<Fs<D>>) {
    forall k :: 0 <= k < |journal| && path in before.live && journal[k].live != before.live
      ==> exists j :: 0 <= j < k && CopyMade(before, path, name, journal[j])
  }

  /** The copy of the document at `path` is not begun, torn, or whole, and no other copy differs. */
  ghost predicate CopyBegun<D(!new)>(before: Fs<D>, path: string, name: string, now: map<string, File<D>>) {
    || now == before.backups
    || (path in before.live && name !in before.backups
        && (now == before.backups[name := Torn] || now == before.backups[name := before.live[path]]))
  }

  /** Some of the copies that pruning is to remove have gone, and nothing else. */
  ghost predicate PartlyPruned<D(!new)>(full: map<string, File<D>>, stem: string, ext: string, now: map<string, File<D>>) {
    full.Keys - now.Keys <= Pruned(full.Keys, stem, ext) && now == full - (full.Keys - now.Keys)
  }

  ghost predicate FewerCopies<D(!new)>(before: Fs<D>, stem: string, ext: string, now: Fs<D>) {
    now.live == before.live && now.temps == before.temps && PartlyPruned(before.backups, stem, ext, now.backups)
  }

  /** What holds of every state a save or a removal passes through: the change is not made and its copy is under
    * way, or it is made and pruning is under way. */
  ghost predicate SafePoint<D(!new)>(before: Fs<D>, change: Change<D>, stem: string, ext: string, name: string, now: Fs<D>) {
    || (now.live == before.live && CopyBegun(before, change.path, name, now.backups))
    || (now.live == Changed(before.live, change)
        && (change.path in before.live ==> name !in before.backups)
        && PartlyPruned(CopiedTo(before, change.path, name), stem, ext, now.backups))
  }

  ghost predicate AllWhole<D(!new)>(files: map<string, File<D>>) {
    forall p :: p in files ==> files[p].Whole?
  }

  /** Sort a directory's names. */
  method SortNames(names: set<string>) returns (sorted: seq<string>)
    ensures Increasing(sorted) && Elements(sorted) == names
  {
    sorted := [];
    var rest := names;
    while rest != {}
      invariant rest <= names && Increasing(sorted) && Elements(sorted) == names - rest
      decreases rest
    {
      var x :| x in rest;
      assert x !in Elements(sorted);
      sorted := Place(sorted, x);
      rest := rest - {x};
    }
  }

  class Disk<D(!new)> {
    var fs: Fs<D>
    ghost var journal: seq<Fs<D>>

    ghost predicate Valid()
      reads this
    {
      journal != [] && journal[|journal| - 1] == fs && OneStepEach(journal)
    }

    constructor (start: Fs<D>)
      ensures Valid() && fs == start && journal == [start]
    {
      fs := start;
      journal := [start];
    }

    /** Record the state after one step. */
    method Move(next: Fs<D>)
      requires Valid() && OneStep(fs, next)
      modifies this
      ensures Valid() && fs == next && journal == old(journal) + [next]
    {
      fs := next;
      journal := journal + [next];
    }

    /** Copy the document at `path` aside under a fresh name. */
    method BackUp(path: string, name: string, fault: Fault) returns (copied: bool)
      requires Valid() && path in fs.live
      modifies this
      ensures Valid() && old(journal) <= journal
      ensures copied <==> fault != CopyFails && name !in old(fs).backups
      ensures copied ==> fs == old(fs).(backups := old(fs).backups[name := old(fs).live[path]])
      ensures fs.live == old(fs).live && fs.temps == old(fs).temps
      ensures !copied && name !in old(fs).backups ==> fs.backups == old(fs).backups[name := Torn]
      ensures forall k :: |old(journal)| <= k < |journal| ==>
                journal[k].live == old(fs).live && CopyBegun(old(fs), path, name, journal[k].backups)
      ensures name in old(fs).backups ==> fs == old(fs)
      ensures copied ==> |journal| > |old(journal)|
    {
      if name in fs.backups {
        return false;
      }
      ghost var before := fs;
      var torn := fs.(backups := fs.backups[name := Torn]);
      assert AgreeBut(fs.backups, torn.backups, name);
      Move(torn);
      if fault == CopyFails {
        return false;
      }
      var whole := fs.(backups := fs.backups[name := fs.live[path]]);
      assert AgreeBut(fs.backups, whole.backups, name);
      Move(whole);
      assert fs.backups == before.backups[name := before.live[path]];
      return true;
    }

    /** Sort one document's names and remove from the front, all but the last BACKUPS_KEPT. A name in `stuck`
      * is passed over. */
    method Prune(stem: string, ext: string, stuck: set<string>)
      requires Valid()
      modifies this
      ensures Valid() && old(journal) <= journal
      ensures fs == old(fs).(backups := old(fs).backups - (Pruned(old(fs).backups.Keys, stem, ext) - stuck))
      ensures forall k :: |old(journal)| <= k < |journal| ==> FewerCopies(old(fs), stem, ext, journal[k])
    {
      hide Pruned, Mine, IsMine, Increasing, OneStep, OneStepEach, FewerCopies;
      ghost var before := fs;
      var mine := SortNames(Mine(fs.backups.Keys, stem, ext));
      var excess := if |mine| > BACKUPS_KEPT then |mine| - BACKUPS_KEPT else 0;
      PrunedIsFront(fs.backups.Keys, stem, ext, mine);
      for k := 0 to excess
        invariant Valid() && old(journal) <= journal
        invariant fs.live == before.live && fs.temps == before.temps
        invariant fs.backups == before.backups - (Elements(mine[..k]) - stuck)
        invariant forall j :: |old(journal)| <= j < |journal| ==> FewerCopies(before, stem, ext, journal[j])
      {
        OneMoreElement(mine, k);
        if mine[k] !in stuck {
          FrontIsSmaller(mine, k, excess);
          CopyGone(before, stem, ext, fs, Elements(mine[..k]) - stuck, mine[k]);
          Move(fs.(backups := fs.backups - {mine[k]}));
        }
      }
    }

    /** Write the temp file of `path`; a failure leaves it torn. */
    method WriteTemp(path: string, doc: D, fault: Fault) returns (written: bool)
      requires Valid()
      modifies this
      ensures Valid() && old(journal) < journal
      ensures written <==> fault != TempFails
      ensures written ==> fs == old(fs).(temps := old(fs).temps[path := Whole(doc)])
      ensures fs.live == old(fs).live && fs.backups == old(fs).backups
      ensures forall k :: |old(journal)| <= k < |journal| ==>
                journal[k].live == old(fs).live && journal[k].backups == old(fs).backups
    {
      hide OneStep;
      TempStep(fs, path, Torn);
      Move(fs.(temps := fs.temps[path := Torn]));
      if fault == TempFails {
        return false;
      }
      TempStep(fs, path, Whole(doc));
      Move(fs.(temps := fs.temps[path := Whole(doc)]));
      return true;
    }

    /** Copy the old document aside before it is replaced; if that fails, drop the temp file. */
    method CopyAside(path: string, name: string, fault: Fault) returns (copied: bool)
      requires Valid() && path in fs.live && path in fs.temps
      modifies this
      ensures Valid() && old(journal) <= journal
      ensures copied <==> fault != CopyFails && name !in old(fs).backups
      ensures copied ==> fs == old(fs).(backups := old(fs).backups[name := old(fs).live[path]]) && |journal| > |old(journal)|
      ensures fs.live == old(fs).live
      ensures !copied ==> fs.backups == if name in old(fs).backups then old(fs).backups else old(fs).backups[name := Torn]
      ensures forall k :: |old(journal)| <= k < |journal| ==>
                journal[k].live == old(fs).live && CopyBegun(old(fs), path, name, journal[k].backups)
    {
      hide OneStep, OneStepEach, CopyBegun;
      ghost var before := fs;
      UnchangedIsBegun(before, path, name);
      TornIsBegun(before, path, name);
      copied := BackUp(path, name, fault);
      if !copied {
        TempGone(fs, path);
        Move(fs.(temps := fs.temps - {path}));
      }
    }

    /** Rename the temp file over the document, then prune. */
    method Install(path: string, stem: string, ext: string, stuck: set<string>)
      requires Valid() && path in fs.temps
      modifies this
      ensures Valid() && old(journal) <= journal
      ensures fs.live == old(fs).live[path := old(fs).temps[path]]
      ensures fs.backups == Kept(old(fs).backups, stem, ext, stuck)
      ensures forall k :: |old(journal)| <= k < |journal| ==> FewerCopies(Installed(old(fs), path), stem, ext, journal[k])
    {
      hide Pruned, OneStep, OneStepEach;
      InstallStep(fs, path);
      NothingGone(Installed(fs, path), stem, ext);
      Move(Installed(fs, path));
      Prune(stem, ext, stuck);
    }

    /** Write `doc` at `path`: the temp file, the copy of what it replaces, the rename, the pruning. */
    method Save(path: string, stem: string, ext: string, doc: D, stamp: string, fault: Fault, stuck: set<string>)
      returns (saved: bool)
      requires Valid()
      modifies this
      ensures Valid() && old(journal) <= journal
      ensures saved <==>
              && fault != TempFails && fault != InstallFails
              && (path in old(fs).live ==> fault != CopyFails && BackupName(stem, stamp, ext) !in old(fs).backups)
      ensures fs.live == if saved then old(fs).live[path := Whole(doc)] else old(fs).live
      ensures fs.backups == if fault == TempFails then old(fs).backups
                            else CopiesAfter(old(fs), path, stem, ext, stamp, fault, stuck)
      ensures forall k :: |old(journal)| <= k < |journal| ==>
                SafePoint(old(fs), Put(path, doc), stem, ext, BackupName(stem, stamp, ext), journal[k])
      ensures CopyFirst(old(fs), path, BackupName(stem, stamp, ext), journal[|old(journal)|..])
    {
      hide Pruned, IsMine, OneStep, OneStepEach, BackupName, CopyFirst, CopyMade, SafePoint, CopyBegun, FewerCopies, Kept, Changed, Installed;
      ghost var before, start := fs, |journal|;
      var name := BackupName(stem, stamp, ext);
      var written := WriteTemp(path, doc, fault);
      NothingCopied(before, Put(path, doc), stem, ext, name, journal, start);
      if !written {
        OldStaysLive(before, path, name, journal, start);
        return false;
      }
      if path in fs.live {
        ghost var from := |journal|;
        var copied := CopyAside(path, name, fault);
        CopyIsSafe(before, journal[from - 1], Put(path, doc), stem, ext, name, journal, from);
        if !copied {
          OldStaysLive(before, path, name, journal, start);
          return false;
        }
      }
      if fault == InstallFails {
        OldStaysLive(before, path, name, journal, start);
        return false;
      }
      ghost var copiedAt := |journal| - 1;
      InstalledIsChanged(before, fs, path, doc);
      Install(path, stem, ext, stuck);
      PruningIsSafe(before, Put(path, doc), stem, ext, name, Installed(journal[copiedAt], path), journal, copiedAt);
      CopyBeforeInstall(before, path, name, journal, start, copiedAt);
      return true;
    }

    /** Take the document at `path` away, copying it aside first. */
    method Remove(path: string, stem: string, ext: string, stamp: string, fault: Fault, stuck: set<string>)
      returns (removed: bool)
      requires Valid() && path in fs.live
      modifies this
      ensures Valid() && old(journal) <= journal
      ensures removed <==> fault != CopyFails && fault != InstallFails && BackupName(stem, stamp, ext) !in old(fs).backups
      ensures fs.live == if removed then old(fs).live - {path} else old(fs).live
      ensures fs.backups == CopiesAfter(old(fs), path, stem, ext, stamp, fault, stuck)
      ensures forall k :: |old(journal)| <= k < |journal| ==>
                SafePoint(old(fs), Take(path), stem, ext, BackupName(stem, stamp, ext), journal[k])
      ensures CopyFirst(old(fs), path, BackupName(stem, stamp, ext), journal[|old(journal)|..])
    {
      hide Pruned, IsMine, OneStep, OneStepEach, BackupName, CopyFirst, CopyMade, SafePoint, CopyBegun, FewerCopies;
      ghost var before, start := fs, journal;
      var name := BackupName(stem, stamp, ext);
      var copied := BackUp(path, name, fault);
      CopyIsSafe(before, before, Take(path), stem, ext, name, journal, |start|);
      if !copied || fault == InstallFails {
        OldStaysLive(before, path, name, journal, |start|);
        return false;
      }
      ghost var copiedAt := |journal| - 1;
      RemoveStep(fs, path);
      ghost var removal := fs.(live := fs.live - {path});
      Move(fs.(live := fs.live - {path}));
      Prune(stem, ext, stuck);
      NothingGone(removal, stem, ext);
      PruningIsSafe(before, Take(path), stem, ext, name, removal, journal, copiedAt);
      CopyBeforeInstall(before, path, name, journal, |start|, copiedAt);
      return true;
    }
  }

  lemma UnchangedIsBegun<D(!new)>(before: Fs<D>, path: string, name: string)
    ensures CopyBegun(before, path, name, before.backups)
  {
  }

  lemma TornIsBegun<D(!new)>(before: Fs<D>, path: string, name: string)
    requires path in before.live
    ensures name !in before.backups ==> CopyBegun(before, path, name, before.backups[name := Torn])
  {
  }

  lemma NothingCopied<D(!new)>(before: Fs<D>, change: Change<D>, stem: string, ext: string, name: string, journal: seq<Fs<D>>, from: nat)
    requires forall k :: from <= k < |journal| ==> journal[k].live == before.live && journal[k].backups == before.backups
    ensures forall k :: from <= k < |journal| ==> SafePoint(before, change, stem, ext, name, journal[k])
  {
    hide PartlyPruned;
  }

  lemma CopyIsSafe<D(!new)>(before: Fs<D>, written: Fs<D>, change: Change<D>, stem: string, ext: string, name: string,
                            journal: seq<Fs<D>>, from: nat)
    requires written.live == before.live && written.backups == before.backups
    requires forall k :: from <= k < |journal| ==>
               journal[k].live == before.live && CopyBegun(written, change.path, name, journal[k].backups)
    ensures forall k :: from <= k < |journal| ==> SafePoint(before, change, stem, ext, name, journal[k])
  {
    hide PartlyPruned;
  }

  /** Once the change is made, pruning leaves it made. */
  lemma PruningIsSafe<D(!new)>(before: Fs<D>, change: Change<D>, stem: string, ext: string, name: string, made: Fs<D>,
                               journal: seq<Fs<D>>, copiedAt: nat)
    requires change.path in before.live ==> name !in before.backups
    requires made.live == Changed(before.live, change) && made.backups == CopiedTo(before, change.path, name)
    requires forall k :: copiedAt < k < |journal| ==> FewerCopies(made, stem, ext, journal[k])
    ensures forall k :: copiedAt < k < |journal| ==> SafePoint(before, change, stem, ext, name, journal[k])
  {
    hide PartlyPruned, CopyBegun;
  }

  lemma NothingGone<D(!new)>(fs: Fs<D>, stem: string, ext: string)
    ensures FewerCopies(fs, stem, ext, fs)
  {
    assert fs.backups.Keys - fs.backups.Keys == {};
  }

  lemma FrontIsSmaller(s: seq<string>, k: nat, m: nat)
    requires k < m <= |s|
    ensures Elements(s[..k]) + {s[k]} <= Elements(s[..m])
  {
    forall x | x in Elements(s[..k]) + {s[k]}
      ensures x in s[..m]
    {
      if x in s[..k] {
        var j :| 0 <= j < k && s[..k][j] == x;
        assert s[..m][j] == x;
      } else {
        assert s[..m][k] == x;
      }
    }
  }

  lemma InstalledIsChanged<D(!new)>(before: Fs<D>, fs: Fs<D>, path: string, doc: D)
    requires fs.live == before.live && path in fs.temps && fs.temps[path] == Whole(doc)
    ensures Installed(fs, path).live == Changed(before.live, Put(path, doc))
    ensures Installed(fs, path).backups == fs.backups
  {
  }

  lemma OldStaysLive<D(!new)>(before: Fs<D>, path: string, name: string, journal: seq<Fs<D>>, start: nat)
    requires start <= |journal|
    requires forall k :: start <= k < |journal| ==> journal[k].live == before.live
    ensures CopyFirst(before, path, name, journal[start..])
  {
  }

  lemma CopyBeforeInstall<D(!new)>(before: Fs<D>, path: string, name: string, journal: seq<Fs<D>>, start: nat, copiedAt: nat)
    requires start <= copiedAt < |journal|
    requires forall k :: start <= k <= copiedAt ==> journal[k].live == before.live
    requires path in before.live ==> name in journal[copiedAt].backups && journal[copiedAt].backups[name] == before.live[path]
    ensures CopyFirst(before, path, name, journal[start..])
  {
    var tail := journal[start..];
    assert path in before.live ==> CopyMade(before, path, name, tail[copiedAt - start]);
  }

  function CopiedTo<D>(fs: Fs<D>, path: string, name: string): map<string, File<D>> {
    if path in fs.live then fs.backups[name := fs.live[path]] else fs.backups
  }

  function Kept<D>(backups: map<string, File<D>>, stem: string, ext: string, stuck: set<string>): map<string, File<D>> {
    backups - (Pruned(backups.Keys, stem, ext) - stuck)
  }

  /** The copies after a save or a removal that got as far as its own copy. Where nothing was to be replaced only
    * the pruning can change them; a refused copy leaves a torn file; a refused change, the whole copy. */
  function CopiesAfter<D>(fs: Fs<D>, path: string, stem: string, ext: string, stamp: string, fault: Fault, stuck: set<string>): map<string, File<D>> {
    var name := BackupName(stem, stamp, ext);
    if path in fs.live && name in fs.backups then fs.backups
    else if path in fs.live && fault == CopyFails then fs.backups[name := Torn]
    else if fault == InstallFails then CopiedTo(fs, path, name)
    else Kept(CopiedTo(fs, path, name), stem, ext, stuck)
  }

  lemma TempStep<D(!new)>(fs: Fs<D>, path: string, file: File<D>)
    ensures OneStep(fs, fs.(temps := fs.temps[path := file]))
  {
    assert AgreeBut(fs.temps, fs.temps[path := file], path);
  }

  lemma TempGone<D(!new)>(fs: Fs<D>, path: string)
    ensures OneStep(fs, fs.(temps := fs.temps - {path}))
  {
    assert AgreeBut(fs.temps, fs.temps - {path}, path);
  }

  function Installed<D>(fs: Fs<D>, path: string): Fs<D>
    requires path in fs.temps
  {
    fs.(live := fs.live[path := fs.temps[path]], temps := fs.temps - {path})
  }

  lemma OneMoreElement(s: seq<string>, k: nat)
    requires k < |s|
    ensures Elements(s[..k + 1]) == Elements(s[..k]) + {s[k]}
  {
  }

  lemma CopyGone<D(!new)>(before: Fs<D>, stem: string, ext: string, fs: Fs<D>, gone: set<string>, name: string)
    requires fs == before.(backups := before.backups - gone)
    requires gone + {name} <= Pruned(before.backups.Keys, stem, ext)
    ensures var next := fs.(backups := fs.backups - {name});
            OneStep(fs, next) && FewerCopies(before, stem, ext, next) && next.backups == before.backups - (gone + {name})
  {
    hide Pruned;
    var next := fs.(backups := fs.backups - {name});
    assert AgreeBut(fs.backups, fs.backups - {name}, name);
    assert before.backups.Keys - next.backups.Keys <= gone + {name};
  }

  lemma InstallStep<D(!new)>(fs: Fs<D>, path: string)
    requires path in fs.temps
    ensures OneStep(fs, Installed(fs, path))
  {
  }

  lemma RemoveStep<D(!new)>(fs: Fs<D>, path: string)
    ensures OneStep(fs, fs.(live := fs.live - {path}))
  {
  }

  // ---------------------------------------------------------------- crashes and restarts

  /** A run of saves and removals, each going on from wherever the one before it was stopped. */
  ghost predicate CrashRun<D(!new)>(states: seq<Fs<D>>, changes: seq<Change<D>>) {
    && |states| == |changes| + 1
    && forall k :: 0 <= k < |changes| ==> OldOrNew(states[k], changes[k], states[k + 1])
  }

  /** A save or a removal cut off at any state of its journal is one more step of such a run. */
  lemma CutOffIsCrashStep<D(!new)>(states: seq<Fs<D>>, changes: seq<Change<D>>, change: Change<D>, stem: string, ext: string,
                                   name: string, now: Fs<D>)
    requires CrashRun(states, changes) && SafePoint(states[|changes|], change, stem, ext, name, now)
    ensures CrashRun(states + [now], changes + [change])
  {
    hide CopyBegun, PartlyPruned;
    var longer, more := states + [now], changes + [change];
    forall k | 0 <= k < |more|
      ensures OldOrNew(longer[k], more[k], longer[k + 1])
    {
      if k < |changes| {
        assert longer[k] == states[k] && more[k] == changes[k] && longer[k + 1] == states[k + 1];
      }
    }
  }

  /** No crash ever leaves a live document torn, however many saves and removals are cut off: each live
    * document is whole, and it is the first one or one that some save was given for that path. */
  lemma {:induction false} NoTornDocument<D(!new)>(states: seq<Fs<D>>, changes: seq<Change<D>>, p: string)
    requires CrashRun(states, changes) && AllWhole(states[0].live)
    requires p in states[|changes|].live
    ensures var now := states[|changes|].live[p];
            && now.Whole?
            && ((p in states[0].live && now == states[0].live[p])
                || exists k :: 0 <= k < |changes| && changes[k] == Put(p, now.doc))
  {
    var n := |changes|;
    if n > 0 {
      var last := n - 1;
      assert OldOrNew(states[last], changes[last], states[n]);
      if changes[last].Put? && p == changes[last].path && states[n].live != states[last].live {
        assert changes[last] == Put(p, states[n].live[p].doc);
      } else {
        NoTornDocument(states[..n], changes[..last], p);
      }
    }
  }

  // ---------------------------------------------------------------- what a reader finds

  /** The whole documents. */
  ghost function Documents<D(!new)>(live: map<string, File<D>>): map<string, D> {
    map p | p in live && live[p].Whole? :: live[p].doc
  }

  function ChangedDocs<D>(docs: map<string, D>, change: Change<D>): map<string, D> {
    match change
    case Put(path, doc) => docs[path := doc]
    case Take(path) => docs - {path}
  }

  /** Wherever the journal is cut off from here on, a restart finds every document whole, and all of them as
    * they were before or all as they are to be after. */
  ghost predicate CutsClean<D(!new)>(journal: seq<Fs<D>>, from: nat, before: map<string, D>, after: map<string, D>) {
    forall k :: from <= k < |journal| ==>
      AllWhole(journal[k].live) && (Documents(journal[k].live) == before || Documents(journal[k].live) == after)
  }

  lemma SafePointsCutClean<D(!new)>(before: Fs<D>, change: Change<D>, stem: string, ext: string, name: string,
                                    journal: seq<Fs<D>>, from: nat)
    requires AllWhole(before.live)
    requires forall k :: from <= k < |journal| ==> SafePoint(before, change, stem, ext, name, journal[k])
    ensures CutsClean(journal, from, Documents(before.live), ChangedDocs(Documents(before.live), change))
  {
    hide CopyBegun, PartlyPruned;
    var after := Changed(before.live, change);
    assert AllWhole(after) && Documents(after) == ChangedDocs(Documents(before.live), change);
  }

  /** Where nothing is written there is nothing to cut. */
  lemma NothingToCut<D(!new)>(journal: seq<Fs<D>>)
    ensures forall before, after :: CutsClean(journal, |journal|, before, after)
  {
  }
}
