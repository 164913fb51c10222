/** Which copies of replaced documents are left after any number of saves of any documents. Clocks may run
  * back, and some copies may refuse to be removed.
  */
module Copies {

  import opened Backups
  import opened Disk
  import opened Text
  import Ids

  /** The copy just made survives its own pruning iff fewer than BACKUPS_KEPT of the document's copies
    * sort after it. On a clock that ran backwards it may not. */
  lemma FreshCopyKept<D(!new)>(backups: map<string, File<D>>, stem: string, ext: string, stamp: string, stuck: set<string>)
    requires IsStamp(stamp)
    requires BackupName(stem, stamp, ext) in backups && BackupName(stem, stamp, ext) !in stuck
    ensures BackupName(stem, stamp, ext) in Kept(backups, stem, ext, stuck)
       <==> |Newer(backups.Keys, stem, ext, BackupName(stem, stamp, ext))| < BACKUPS_KEPT
  {
    NeverAnothers(stem, stem, stamp, ext);
    hide BackupName, IsMine, Newer;
  }

  // ---------------------------------------------------------------- names in order of their stamps

  function NamesOf(stem: string, ext: string, stamps: seq<string>): (names: seq<string>)
    ensures |names| == |stamps|
  {
    seq(|stamps|, k requires 0 <= k < |stamps| => BackupName(stem, stamps[k], ext))
  }

  lemma NamesIncrease(stem: string, ext: string, stamps: seq<string>)
    requires Increasing(stamps) && forall k :: 0 <= k < |stamps| ==> IsStamp(stamps[k])
    ensures Increasing(NamesOf(stem, ext, stamps))
    ensures forall k :: 0 <= k < |stamps| ==> IsMine(stem, ext, NamesOf(stem, ext, stamps)[k])
  {
    hide BackupName;
    forall i, j | 0 <= i < j < |stamps|
      ensures Before(BackupName(stem, stamps[i], ext), BackupName(stem, stamps[j], ext))
    {
      NamesSortByStamp(stem, stamps[i], stamps[j], ext);
    }
    forall k | 0 <= k < |stamps|
      ensures IsMine(stem, ext, BackupName(stem, stamps[k], ext))
    {
      NeverAnothers(stem, stem, stamps[k], ext);
    }
  }

  lemma IncreasingIsDistinct(s: seq<string>, i: nat, j: nat)
    requires Increasing(s) && i < |s| && j < |s| && i != j
    ensures s[i] != s[j]
  {
    BeforeIsStrict(s[i], s[j]);
    BeforeIsStrict(s[j], s[i]);
  }

  lemma SuffixIncreases(s: seq<string>, k: nat)
    requires Increasing(s) && k <= |s|
    ensures Increasing(s[k..])
    ensures |Elements(s[k..])| == |s| - k
    ensures forall j :: k <= j < |s| ==> s[j] in Elements(s[k..])
    ensures forall x :: x in Elements(s[k..]) ==> exists j :: k <= j < |s| && s[j] == x
  {
    IncreasingCount(s[k..]);
    forall j | k <= j < |s|
      ensures s[j] in Elements(s[k..])
    {
      assert s[k..][j - k] == s[j];
    }
  }

  /** A document's copies are among `names`, and its last BACKUPS_KEPT are all there. */
  ghost predicate LastAreThere(copies: set<string>, stem: string, ext: string, names: seq<string>) {
    && (forall k :: 0 <= k < |names| ==> IsMine(stem, ext, names[k]))
    && (forall x :: x in copies && IsMine(stem, ext, x) ==> exists k :: 0 <= k < |names| && x == names[k])
    && (forall k :: 0 <= k < |names| && k + BACKUPS_KEPT >= |names| ==> names[k] in copies)
  }

  /** Then a copy has enough newer ones to be pruned exactly when it is not among those last. */
  lemma RankAmongLast(copies: set<string>, stem: string, ext: string, names: seq<string>, k: nat)
    requires Increasing(names) && LastAreThere(copies, stem, ext, names) && k < |names|
    ensures |Newer(copies, stem, ext, names[k])| >= BACKUPS_KEPT <==> k + BACKUPS_KEPT < |names|
  {
    hide IsMine;
    var newer := Newer(copies, stem, ext, names[k]);
    SuffixIncreases(names, k + 1);
    forall x | x in newer
      ensures x in Elements(names[k + 1..])
    {
      var j :| 0 <= j < |names| && x == names[j];
      if j <= k {
        BeforeIsStrict(names[j], names[k]);
      }
    }
    Ids.SmallerSet(newer, Elements(names[k + 1..]));
    if k + BACKUPS_KEPT < |names| {
      var first := |names| - BACKUPS_KEPT;
      SuffixIncreases(names, first);
      forall x | x in Elements(names[first..])
        ensures x in newer
      {
        var j :| first <= j < |names| && names[j] == x;
        assert Before(names[k], names[j]);
      }
      Ids.SmallerSet(Elements(names[first..]), newer);
    }
  }

  // ---------------------------------------------------------------- many attempts

  /** One copy made of a document that a save or a removal set out to replace: torn or whole, whether the change
    * then went through, and if it did, which copies the pruning after it left although it was to remove them. */
  datatype Attempt<D> = Attempt(stem: string, stamp: string, file: File<D>, replaced: bool, stuck: set<string>)

  function NameOf<D>(a: Attempt<D>, ext: string): string { BackupName(a.stem, a.stamp, ext) }

  /** The copies after a list of attempts on any documents, oldest first. */
  ghost function AfterAttempts<D(!new)>(backups: map<string, File<D>>, ext: string, attempts: seq<Attempt<D>>): map<string, File<D>> {
    if attempts == [] then backups
    else
      var last := attempts[|attempts| - 1];
      AfterAttempt(AfterAttempts(backups, ext, attempts[..|attempts| - 1]), ext, last)
  }

  /** Only a change that went through prunes. */
  function AfterAttempt<D>(backups: map<string, File<D>>, ext: string, a: Attempt<D>): map<string, File<D>> {
    var added := backups[NameOf(a, ext) := a.file];
    if a.replaced then Kept(added, a.stem, ext, a.stuck) else added
  }

  /** The attempts on one document among them. */
  function Own<D>(attempts: seq<Attempt<D>>, stem: string): (own: seq<Attempt<D>>)
    ensures forall k :: 0 <= k < |own| ==> own[k].stem == stem && own[k] in attempts
  {
    if attempts == [] then []
    else
      assert attempts == attempts[..|attempts| - 1] + [attempts[|attempts| - 1]];
      var rest := Own(attempts[..|attempts| - 1], stem);
      if attempts[|attempts| - 1].stem == stem then rest + [attempts[|attempts| - 1]] else rest
  }

  function StampsOf<D>(own: seq<Attempt<D>>): (stamps: seq<string>)
    ensures |stamps| == |own| && forall k :: 0 <= k < |own| ==> stamps[k] == own[k].stamp
  {
    seq(|own|, k requires 0 <= k < |own| => own[k].stamp)
  }

  /** Each of the document's own later attempts that went through with 20 newer copies made found copy k stuck. */
  ghost predicate Stays<D(!new)>(own: seq<Attempt<D>>, ext: string, k: nat)
    requires k < |own|
  {
    forall m :: k + BACKUPS_KEPT <= m < |own| && own[m].replaced ==> NameOf(own[k], ext) in own[m].stuck
  }

  /** The document's copies are those of its own attempts that stay, each as it was made. */
  ghost predicate HoldsThose<D(!new)>(backups: map<string, File<D>>, stem: string, ext: string, own: seq<Attempt<D>>) {
    && (forall k :: 0 <= k < |own| ==> (NameOf(own[k], ext) in backups <==> Stays(own, ext, k)))
    && (forall k :: 0 <= k < |own| && NameOf(own[k], ext) in backups ==> backups[NameOf(own[k], ext)] == own[k].file)
    && (forall x :: x in backups && IsMine(stem, ext, x) ==> exists k :: 0 <= k < |own| && x == NameOf(own[k], ext))
  }

  /** An attempt on another document leaves this one's copies alone. */
  lemma OtherSaveKeepsMine<D(!new)>(backups: map<string, File<D>>, ext: string, s: Attempt<D>, stem: string, x: string)
    requires s.stem != stem && IsStamp(s.stamp) && IsMine(stem, ext, x)
    ensures x in AfterAttempt(backups, ext, s) <==> x in backups
    ensures x in backups ==> AfterAttempt(backups, ext, s)[x] == backups[x]
  {
    MineAreMade(stem, ext, x);
    var stamp :| IsStamp(stamp) && x == BackupName(stem, stamp, ext);
    NeverAnothers(s.stem, stem, stamp, ext);
    NeverAnothers(stem, s.stem, s.stamp, ext);
    hide BackupName, IsMine, Newer, IsStamp;
  }

  lemma OtherSaveHolds<D(!new)>(backups: map<string, File<D>>, ext: string, s: Attempt<D>, stem: string, own: seq<Attempt<D>>)
    requires s.stem != stem && IsStamp(s.stamp)
    requires forall k :: 0 <= k < |own| ==> own[k].stem == stem && IsStamp(own[k].stamp)
    requires HoldsThose(backups, stem, ext, own)
    ensures HoldsThose(AfterAttempt(backups, ext, s), stem, ext, own)
  {
    hide BackupName, IsMine, IsStamp, AfterAttempt, Stays;
    var after := AfterAttempt(backups, ext, s);
    forall x | IsMine(stem, ext, x)
      ensures x in after <==> x in backups
      ensures x in backups ==> after[x] == backups[x]
    {
      OtherSaveKeepsMine(backups, ext, s, stem, x);
    }
    forall k | 0 <= k < |own|
      ensures IsMine(stem, ext, NameOf(own[k], ext))
    {
      NeverAnothers(stem, stem, own[k].stamp, ext);
    }
  }

  lemma StaysWithNext<D(!new)>(own: seq<Attempt<D>>, ext: string, s: Attempt<D>, k: nat)
    requires k < |own|
    ensures Stays(own + [s], ext, k) <==> Stays(own, ext, k) && (k + BACKUPS_KEPT <= |own| && s.replaced ==> NameOf(own[k], ext) in s.stuck)
  {
    hide NameOf;
    var more := own + [s];
    assert forall m :: 0 <= m < |own| ==> more[m] == own[m];
    assert more[|own|] == s;
  }

  /** What is there just before the next save of the document prunes. */
  lemma NextIsAdded<D(!new)>(backups: map<string, File<D>>, stem: string, ext: string, own: seq<Attempt<D>>, s: Attempt<D>)
    requires HoldsThose(backups, stem, ext, own) && s.stem == stem
    requires forall k :: 0 <= k < |own| ==> own[k].stem == stem
    requires Increasing(StampsOf(own + [s])) && forall k :: 0 <= k <= |own| ==> IsStamp((own + [s])[k].stamp)
    ensures var names := NamesOf(stem, ext, StampsOf(own + [s]));
            && Increasing(names)
            && LastAreThere(backups[NameOf(s, ext) := s.file].Keys, stem, ext, names)
            && (forall k :: 0 <= k < |own| ==> names[k] == NameOf(own[k], ext) && names[k] != NameOf(s, ext))
            && names[|own|] == NameOf(s, ext)
  {
    hide BackupName, IsMine, IsStamp, Increasing;
    var more := own + [s];
    var names := NamesOf(stem, ext, StampsOf(more));
    NamesIncrease(stem, ext, StampsOf(more));
    forall k | 0 <= k < |own|
      ensures names[k] == NameOf(own[k], ext) && names[k] != NameOf(s, ext)
    {
      assert more[k] == own[k] && more[|own|] == s;
      IncreasingIsDistinct(names, k, |own|);
    }
    assert names[|own|] == NameOf(s, ext);
    hide NameOf;
    var added := backups[NameOf(s, ext) := s.file];
    forall x | x in added && IsMine(stem, ext, x)
      ensures exists k :: 0 <= k < |names| && x == names[k]
    {
      if x != NameOf(s, ext) {
        var k :| 0 <= k < |own| && x == NameOf(own[k], ext);
        assert x == names[k];
      }
    }
  }

  /** Whether copy k is left by the next own save's pruning. */
  lemma CopyAfterNext<D(!new)>(backups: map<string, File<D>>, stem: string, ext: string, names: seq<string>, s: Attempt<D>, k: nat)
    requires s.stem == stem && k < |names| && Increasing(names)
    requires LastAreThere(backups[NameOf(s, ext) := s.file].Keys, stem, ext, names)
    ensures var added := backups[NameOf(s, ext) := s.file];
            names[k] in AfterAttempt(backups, ext, s) <==> names[k] in added && (k + BACKUPS_KEPT < |names| && s.replaced ==> names[k] in s.stuck)
  {
    hide IsMine, Newer, Increasing, NameOf;
    var added := backups[NameOf(s, ext) := s.file];
    RankAmongLast(added.Keys, stem, ext, names, k);
    assert IsMine(stem, ext, names[k]);
    hide LastAreThere;
  }

  lemma OwnCopyHolds<D(!new)>(backups: map<string, File<D>>, stem: string, ext: string, own: seq<Attempt<D>>, s: Attempt<D>, k: nat)
    requires HoldsThose(backups, stem, ext, own) && s.stem == stem && k <= |own|
    requires forall k :: 0 <= k < |own| ==> own[k].stem == stem
    requires Increasing(StampsOf(own + [s])) && forall k :: 0 <= k <= |own| ==> IsStamp((own + [s])[k].stamp)
    ensures var more, after := own + [s], AfterAttempt(backups, ext, s);
            && (NameOf(more[k], ext) in after <==> Stays(more, ext, k))
            && (NameOf(more[k], ext) in after ==> after[NameOf(more[k], ext)] == more[k].file)
  {
    NextIsAdded(backups, stem, ext, own, s);
    hide BackupName, IsMine, Increasing, NameOf, IsStamp, LastAreThere, NamesOf, AfterAttempt, Stays;
    var names := NamesOf(stem, ext, StampsOf(own + [s]));
    CopyAfterNext(backups, stem, ext, names, s, k);
    AfterIsFromAdded(backups, ext, s, names[k]);
    if k < |own| {
      StaysWithNext(own, ext, s, k);
    } else {
      NewestStays(own, ext, s);
    }
  }

  lemma OwnSaveHolds<D(!new)>(backups: map<string, File<D>>, stem: string, ext: string, own: seq<Attempt<D>>, s: Attempt<D>)
    requires HoldsThose(backups, stem, ext, own) && s.stem == stem
    requires forall k :: 0 <= k < |own| ==> own[k].stem == stem
    requires Increasing(StampsOf(own + [s])) && forall k :: 0 <= k <= |own| ==> IsStamp((own + [s])[k].stamp)
    ensures HoldsThose(AfterAttempt(backups, ext, s), stem, ext, own + [s])
  {
    var more, after := own + [s], AfterAttempt(backups, ext, s);
    forall k | 0 <= k < |more|
      ensures NameOf(more[k], ext) in after <==> Stays(more, ext, k)
      ensures NameOf(more[k], ext) in after ==> after[NameOf(more[k], ext)] == more[k].file
    {
      OwnCopyHolds(backups, stem, ext, own, s, k);
    }
    hide BackupName, IsMine, Increasing, NameOf, IsStamp, AfterAttempt, Stays;
    forall x | x in after && IsMine(stem, ext, x)
      ensures exists k :: 0 <= k < |more| && x == NameOf(more[k], ext)
    {
      AfterIsFromAdded(backups, ext, s, x);
      if x != NameOf(s, ext) {
        var k :| 0 <= k < |own| && x == NameOf(own[k], ext);
        assert x == NameOf(more[k], ext);
      } else {
        assert x == NameOf(more[|own|], ext);
      }
    }
  }

  lemma NewestStays<D(!new)>(own: seq<Attempt<D>>, ext: string, s: Attempt<D>)
    ensures Stays(own + [s], ext, |own|)
  {
  }

  lemma AfterIsFromAdded<D(!new)>(backups: map<string, File<D>>, ext: string, s: Attempt<D>, x: string)
    ensures x in AfterAttempt(backups, ext, s) ==>
              (x == NameOf(s, ext) || x in backups)
              && AfterAttempt(backups, ext, s)[x] == if x == NameOf(s, ext) then s.file else backups[x]
  {
    hide Pruned, NameOf;
  }

  /** Whatever attempts on other documents come in between, whichever fail, are cut off or find copies stuck: of a
    * document with increasing stamps and no earlier copies, exactly those copies are left that every later
    * attempt due to remove them found stuck, and each is as it was made. */
  lemma {:induction false} ExactlyTheseAreLeft<D(!new)>(backups: map<string, File<D>>, ext: string, attempts: seq<Attempt<D>>, stem: string)
    requires forall k :: 0 <= k < |attempts| ==> IsStamp(attempts[k].stamp)
    requires Increasing(StampsOf(Own(attempts, stem))) && Mine(backups.Keys, stem, ext) == {}
    ensures HoldsThose(AfterAttempts(backups, ext, attempts), stem, ext, Own(attempts, stem))
  {
    hide BackupName, IsMine, IsStamp, AfterAttempt, Stays;
    if attempts == [] {
      assert forall x :: x in backups && IsMine(stem, ext, x) ==> x in Mine(backups.Keys, stem, ext);
    } else {
      var before, last := attempts[..|attempts| - 1], attempts[|attempts| - 1];
      var own := Own(before, stem);
      if last.stem == stem {
        assert StampsOf(own) == StampsOf(Own(attempts, stem))[..|own|];
      }
      ExactlyTheseAreLeft(backups, ext, before, stem);
      var copies := AfterAttempts(backups, ext, before);
      hide AfterAttempts, HoldsThose, Increasing;
      if last.stem == stem {
        OwnSaveHolds(copies, stem, ext, own, last);
      } else {
        OtherSaveHolds(copies, ext, last, stem, own);
      }
    }
  }

  /** The last 20 copies made of a document are always there. */
  lemma LastCopiesAreThere<D(!new)>(backups: map<string, File<D>>, ext: string, attempts: seq<Attempt<D>>, stem: string, k: nat)
    requires forall k :: 0 <= k < |attempts| ==> IsStamp(attempts[k].stamp)
    requires Increasing(StampsOf(Own(attempts, stem))) && Mine(backups.Keys, stem, ext) == {}
    requires k < |Own(attempts, stem)| && k + BACKUPS_KEPT >= |Own(attempts, stem)|
    ensures var own, left := Own(attempts, stem), AfterAttempts(backups, ext, attempts);
            NameOf(own[k], ext) in left && left[NameOf(own[k], ext)] == own[k].file
  {
    ExactlyTheseAreLeft(backups, ext, attempts, stem);
    hide AfterAttempts, NameOf, Own;
  }

  // ---------------------------------------------------------------- the versions that were replaced

  /** How many attempts from place `from` on went through. */
  function ReplacedFrom<D>(own: seq<Attempt<D>>, from: nat): nat
    decreases |own| - from
  {
    if from >= |own| then 0
    else (if own[from].replaced then 1 else 0) + ReplacedFrom(own, from + 1)
  }

  lemma {:induction false} FewReplaced<D>(own: seq<Attempt<D>>, from: nat, to: nat)
    requires from <= to && forall m :: to <= m < |own| ==> !own[m].replaced
    ensures ReplacedFrom(own, from) <= to - from
    ensures ReplacedFrom(own, from) == to - from ==> to <= |own| || from == to
    ensures ReplacedFrom(own, from) == to - from ==> forall m :: from <= m < to && m < |own| ==> own[m].replaced
    decreases |own| - from
  {
    if from < |own| {
      FewReplaced(own, from + 1, if from < to then to else to + 1);
    }
  }

  lemma {:induction false} ManyReplaced<D>(own: seq<Attempt<D>>, from: nat, to: nat)
    requires from <= to <= |own| && forall m :: from <= m < to ==> own[m].replaced
    ensures ReplacedFrom(own, from) >= to - from
    decreases |own| - from
  {
    if from < to {
      ManyReplaced(own, from + 1, to);
    }
  }

  ghost predicate NothingStuck<D(!new)>(own: seq<Attempt<D>>, ext: string) {
    forall k, m :: 0 <= k < |own| && 0 <= m < |own| ==> NameOf(own[k], ext) !in own[m].stuck
  }

  /** Every version replaced from attempt q on has its copy. */
  ghost predicate VersionsAreThere<D(!new)>(left: map<string, File<D>>, ext: string, own: seq<Attempt<D>>, q: nat) {
    forall k :: q <= k < |own| && own[k].replaced ==>
      NameOf(own[k], ext) in left && left[NameOf(own[k], ext)] == own[k].file
  }

  /** From attempt q on, every attempt up to the last one that went through did. */
  predicate NoneFailedBetween<D>(own: seq<Attempt<D>>, q: nat) {
    forall i, m :: q <= i < m < |own| && own[m].replaced ==> own[i].replaced
  }

  /** When nothing is stuck, the versions replaced from attempt q on are all there if and only if no attempt twenty
    * or more after q went through. Where q begins the last 20 replaced versions, that is if and only if no
    * attempt from q to the last that went through failed: one that did holds a copy among the 20. */
  lemma LastVersionsAreKept<D(!new)>(backups: map<string, File<D>>, ext: string, attempts: seq<Attempt<D>>, stem: string, q: nat)
    requires forall k :: 0 <= k < |attempts| ==> IsStamp(attempts[k].stamp)
    requires Increasing(StampsOf(Own(attempts, stem))) && Mine(backups.Keys, stem, ext) == {}
    requires NothingStuck(Own(attempts, stem), ext)
    requires q < |Own(attempts, stem)| && Own(attempts, stem)[q].replaced
    ensures var own, left := Own(attempts, stem), AfterAttempts(backups, ext, attempts);
            && (VersionsAreThere(left, ext, own, q) <==> forall m :: q + BACKUPS_KEPT <= m < |own| ==> !own[m].replaced)
            && (ReplacedFrom(own, q) == BACKUPS_KEPT ==>
                  (VersionsAreThere(left, ext, own, q) <==> NoneFailedBetween(own, q)))
  {
    ExactlyTheseAreLeft(backups, ext, attempts, stem);
    var own := Own(attempts, stem);
    hide AfterAttempts, NameOf, Own, ReplacedFrom, Increasing;
    if ReplacedFrom(own, q) == BACKUPS_KEPT {
      SpanOfLast(own, q);
    }
    hide NoneFailedBetween;
  }

  lemma SpanOfLast<D>(own: seq<Attempt<D>>, q: nat)
    requires q < |own| && own[q].replaced && ReplacedFrom(own, q) == BACKUPS_KEPT
    ensures NoneFailedBetween(own, q) <==> forall m :: q + BACKUPS_KEPT <= m < |own| ==> !own[m].replaced
  {
    hide ReplacedFrom;
    if forall m :: q + BACKUPS_KEPT <= m < |own| ==> !own[m].replaced {
      FewReplaced(own, q, q + BACKUPS_KEPT);
    } else if NoneFailedBetween(own, q) {
      var m :| q + BACKUPS_KEPT <= m < |own| && own[m].replaced;
      ManyReplaced(own, q, m + 1);
    }
  }

  // ---------------------------------------------------------------- what the disk does is an attempt

  /** A save that wrote its temp file, or a removal, of a document on file: the copies stay as they are when its
    * copy's name is taken, and are those after one attempt otherwise. */
  lemma SaveIsAttempt<D(!new)>(fs: Fs<D>, path: string, stem: string, ext: string, stamp: string, fault: Fault, stuck: set<string>)
    requires path in fs.live
    ensures var a := Attempt(stem, stamp, if fault == CopyFails then Torn else fs.live[path],
                             fault != CopyFails && fault != InstallFails, stuck);
            CopiesAfter(fs, path, stem, ext, stamp, fault, stuck)
              == if NameOf(a, ext) in fs.backups then fs.backups else AfterAttempt(fs.backups, ext, a)
  {
    hide Kept, BackupName;
  }

  /** And cut off anywhere, it has made no copy or is one attempt, of the right document and stamp: what pruning
    * had yet to remove counts as stuck. */
  lemma CutIsAttempt<D(!new)>(before: Fs<D>, change: Change<D>, stem: string, ext: string, stamp: string, now: Fs<D>)
      returns (a: Attempt<D>)
    requires change.path in before.live && SafePoint(before, change, stem, ext, BackupName(stem, stamp, ext), now)
    ensures a.stem == stem && a.stamp == stamp
    ensures now.backups == before.backups || now.backups == AfterAttempt(before.backups, ext, a)
    ensures now.live != before.live ==> a.replaced && a.file == before.live[change.path] && NameOf(a, ext) !in before.backups
                                        && now.backups == AfterAttempt(before.backups, ext, a)
  {
    hide BackupName, Pruned;
    var name := BackupName(stem, stamp, ext);
    var full := CopiedTo(before, change.path, name);
    if now.live == before.live && CopyBegun(before, change.path, name, now.backups) {
      a := Attempt(stem, stamp, if now.backups == before.backups[name := Torn] then Torn else before.live[change.path], false, {});
    } else {
      a := Attempt(stem, stamp, before.live[change.path], true, now.backups.Keys);
      assert Pruned(full.Keys, stem, ext) - now.backups.Keys <= full.Keys - now.backups.Keys by {
        PrunedAreThere(full.Keys, stem, ext);
      }
      assert Kept(full, stem, ext, now.backups.Keys) == now.backups;
    }
  }

  lemma PrunedAreThere(names: set<string>, stem: string, ext: string)
    ensures Pruned(names, stem, ext) <= names
  {
    hide IsMine, Newer;
  }

  // ---------------------------------------------------------------- one directory for all the stores

  /** Whose copies a stem is for. */
  datatype Owner = OfBlueprint(project: string, micros: nat, n: nat) | OfAssignment(project: string, micros: nat, n: nat)
                 | OfConnections(project: string)

  function StemOf(o: Owner): string {
    match o
    case OfBlueprint(project, micros, n) => Ids.BlueprintStem(project, Ids.BlueprintId(micros, n))
    case OfAssignment(project, micros, n) => Ids.AssignmentStem(project, Ids.AssignmentId(micros, n))
    case OfConnections(project) => Ids.ConnectionsStem(project)
  }

  /** The same document: of the same store and project, and with the same id. */
  predicate SameDocument(o: Owner, p: Owner) {
    match (o, p)
    case (OfBlueprint(project, micros, n), OfBlueprint(project', micros', n')) =>
      project == project' && Ids.BlueprintId(micros, n) == Ids.BlueprintId(micros', n')
    case (OfAssignment(project, micros, n), OfAssignment(project', micros', n')) =>
      project == project' && Ids.AssignmentId(micros, n) == Ids.AssignmentId(micros', n')
    case (OfConnections(project), OfConnections(project')) => project == project'
    case _ => false
  }

  lemma StemsTellDocuments(o: Owner, p: Owner)
    ensures StemOf(o) == StemOf(p) <==> SameDocument(o, p)
  {
    hide Ids.BlueprintStem, Ids.AssignmentStem, Ids.ConnectionsStem, Ids.BlueprintId, Ids.AssignmentId;
    match (o, p)
    case (OfBlueprint(project, m, n), OfBlueprint(project', m', n')) =>
      if StemOf(o) == StemOf(p) {
        Ids.BlueprintStemsDiffer(project, m, n, project', m', n');
      }
    case (OfAssignment(project, m, n), OfAssignment(project', m', n')) =>
      if StemOf(o) == StemOf(p) {
        Ids.AssignmentStemsDiffer(project, m, n, project', m', n');
      }
    case (OfBlueprint(project, m, n), OfAssignment(project', m', n')) =>
      Ids.StoresNeverShareStems(project, Ids.BlueprintId(m, n), project', Ids.AssignmentId(m', n'), "");
    case (OfAssignment(project, m, n), OfBlueprint(project', m', n')) =>
      Ids.StoresNeverShareStems(project', Ids.BlueprintId(m', n'), project, Ids.AssignmentId(m, n), "");
    case (OfBlueprint(project, m, n), OfConnections(project')) =>
      Ids.StoresNeverShareStems(project, Ids.BlueprintId(m, n), "", "", project');
    case (OfConnections(project), OfBlueprint(project', m', n')) =>
      Ids.StoresNeverShareStems(project', Ids.BlueprintId(m', n'), "", "", project);
    case (OfAssignment(project, m, n), OfConnections(project')) =>
      Ids.StoresNeverShareStems("", "", project, Ids.AssignmentId(m, n), project');
    case (OfConnections(project), OfAssignment(project', m', n')) =>
      Ids.StoresNeverShareStems("", "", project', Ids.AssignmentId(m', n'), project);
    case (OfConnections(project), OfConnections(project')) =>
      Ids.StoresNeverShareStems(project, "", project', "", "");
  }

  /** The stores share one directory, and no attempt of any of them, on whatever document, adds, changes or removes a
    * copy of another document of any of them. */
  lemma StoresKeepOthersCopies<D(!new)>(backups: map<string, File<D>>, ext: string, o: Owner, a: Attempt<D>, other: Owner, x: string)
    requires a.stem == StemOf(o) && IsStamp(a.stamp) && !SameDocument(o, other) && IsMine(StemOf(other), ext, x)
    ensures x in AfterAttempt(backups, ext, a) <==> x in backups
    ensures x in backups ==> AfterAttempt(backups, ext, a)[x] == backups[x]
  {
    StemsTellDocuments(o, other);
    hide StemOf, SameDocument, IsMine, IsStamp;
    OtherSaveKeepsMine(backups, ext, a, StemOf(other), x);
  }

  // ---------------------------------------------------------------- a clock behind

  function Digit(n: nat): char
    requires n < 10
  {
    '0' + n as char
  }

  /** Second n of one minute, as a copy's name has it. */
  function SecondStamp(n: nat): (stamp: string)
    requires n < 60
  {
    "20260101T0000" + ([Digit(n / 10), Digit(n % 10)] + ".000000Z")
  }

  lemma SecondsIncrease(m: nat, n: nat)
    requires m < n < 60
    ensures Before(SecondStamp(m), SecondStamp(n))
  {
    var a, b := [Digit(m / 10), Digit(m % 10)], [Digit(n / 10), Digit(n % 10)];
    assert a[1..] == [a[1]] && b[1..] == [b[1]];
    assert Before(a, b);
    hide Before;
    EqualLengthsDecide(a, b, ".000000Z");
    SharedPrefixKeepsOrder("20260101T0000", a + ".000000Z", b + ".000000Z");
  }

  function Minute(): (stamps: seq<string>)
    ensures |stamps| == BACKUPS_KEPT + 1 && forall k :: 0 <= k < |stamps| ==> stamps[k] == SecondStamp(k)
  {
    seq(BACKUPS_KEPT + 1, k requires 0 <= k < BACKUPS_KEPT + 1 => SecondStamp(k))
  }

  lemma FirstIsApart(names: seq<string>)
    requires Increasing(names) && names != []
    ensures names[0] !in Elements(names[1..]) && Elements(names) == {names[0]} + Elements(names[1..])
  {
    SuffixIncreases(names, 1);
    forall x | x in Elements(names[1..])
      ensures x != names[0]
    {
      var j :| 1 <= j < |names| && names[j] == x;
      IncreasingIsDistinct(names, 0, j);
    }
    assert names == [names[0]] + names[1..];
  }

  lemma EarliestIsPruned<D(!new)>(backups: map<string, File<D>>, ext: string, names: seq<string>, s: Attempt<D>)
    requires Increasing(names) && |names| > BACKUPS_KEPT && names[0] == NameOf(s, ext) && s.replaced && s.stuck == {}
    requires forall k :: 0 <= k < |names| ==> IsMine(s.stem, ext, names[k])
    requires backups.Keys == Elements(names[1..])
    ensures NameOf(s, ext) !in backups && NameOf(s, ext) !in AfterAttempt(backups, ext, s)
  {
    hide IsMine, NameOf;
    FirstIsApart(names);
    hide Increasing;
    CopyAfterNext(backups, s.stem, ext, names, s, 0);
  }

  /** The failing side occurs: beside copies of the twenty seconds that follow, the copy a save has just made
    * on a clock that went back is the one its own pruning removes. */
  lemma ClockBackPrunesFreshCopy<D(!new)>(backups: map<string, File<D>>, stem: string, ext: string, file: File<D>)
    requires backups.Keys == Elements(NamesOf(stem, ext, Minute())[1..])
    ensures var s := Attempt(stem, SecondStamp(0), file, true, {});
            NameOf(s, ext) !in backups && NameOf(s, ext) !in AfterAttempt(backups, ext, s)
  {
    hide SecondStamp, Before;
    forall i, j | 0 <= i < j < |Minute()|
      ensures Before(Minute()[i], Minute()[j])
    {
      SecondsIncrease(i, j);
    }
    forall k | 0 <= k < |Minute()|
      ensures IsStamp(Minute()[k])
    {
      SecondIsStamp(k);
    }
    NamesIncrease(stem, ext, Minute());
    hide Increasing, IsMine, IsStamp, AfterAttempt, BackupName;
    EarliestIsPruned(backups, ext, NamesOf(stem, ext, Minute()), Attempt(stem, SecondStamp(0), file, true, {}));
  }

  lemma SecondIsStamp(n: nat)
    requires n < 60
    ensures IsStamp(SecondStamp(n))
  {
  }

  // ---------------------------------------------------------------- a failed attempt

  /** Twenty replaced versions in all, and one attempt before the last of them that only tore its copy. */
  function OneTorn<D>(stem: string, file: File<D>): (attempts: seq<Attempt<D>>)
    ensures |attempts| == BACKUPS_KEPT + 1
    ensures forall k :: 0 <= k < |attempts| ==>
              attempts[k] == Attempt(stem, SecondStamp(k), if k == BACKUPS_KEPT - 1 then Torn else file, k != BACKUPS_KEPT - 1, {})
  {
    seq(BACKUPS_KEPT + 1, k requires 0 <= k < BACKUPS_KEPT + 1 =>
      Attempt(stem, SecondStamp(k), if k == BACKUPS_KEPT - 1 then Torn else file, k != BACKUPS_KEPT - 1, {}))
  }

  lemma {:induction false} AllOwn<D>(attempts: seq<Attempt<D>>, stem: string)
    requires forall k :: 0 <= k < |attempts| ==> attempts[k].stem == stem
    ensures Own(attempts, stem) == attempts
  {
    if attempts != [] {
      AllOwn(attempts[..|attempts| - 1], stem);
      assert attempts == attempts[..|attempts| - 1] + [attempts[|attempts| - 1]];
    }
  }

  /** The failing side occurs: the first of twenty replaced versions goes, and the torn copy stays in its place. */
  lemma TornCopyTakesPlace<D(!new)>(stem: string, ext: string, file: File<D>)
    ensures var attempts := OneTorn(stem, file);
            var left := AfterAttempts(map[], ext, attempts);
            && NameOf(attempts[0], ext) !in left
            && NameOf(attempts[BACKUPS_KEPT - 1], ext) in left && left[NameOf(attempts[BACKUPS_KEPT - 1], ext)] == Torn
  {
    hide SecondStamp, Before, AfterAttempts, NameOf, IsStamp, Own;
    var attempts := OneTorn(stem, file);
    forall i, j | 0 <= i < j < |attempts|
      ensures Before(attempts[i].stamp, attempts[j].stamp)
    {
      SecondsIncrease(i, j);
    }
    forall k | 0 <= k < |attempts|
      ensures IsStamp(attempts[k].stamp)
    {
      SecondIsStamp(k);
    }
    AllOwn(attempts, stem);
    var none: map<string, File<D>> := map[];
    assert Mine(none.Keys, stem, ext) == {};
    ExactlyTheseAreLeft(none, ext, attempts, stem);
    assert attempts[BACKUPS_KEPT].replaced;
  }
}
