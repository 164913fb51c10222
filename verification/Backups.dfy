/** Names of the copies kept of replaced documents, and which of them pruning removes. A name is a byte
  * string; a char stands for one byte of it.
  */
module Backups {

  import opened Wrappers
  import opened Text

  const BACKUPS_KEPT: nat := 20

  /** Length of a stamp such as 20260101T000000.000000Z. */
  const STAMP_LEN: nat := 23

  predicate IsStamp(s: string) {
    |s| == STAMP_LEN && s[STAMP_LEN - 1] == 'Z'
  }

  function BackupName(stem: string, stamp: string, ext: string): string {
    stem + "." + stamp + "." + ext
  }

  function StripPrefix(s: string, prefix: string): Option<string> {
    if prefix <= s then Some(s[|prefix|..]) else None
  }

  function StripSuffix(s: string, suffix: string): Option<string> {
    if |suffix| <= |s| && s[|s| - |suffix|..] == suffix then Some(s[..|s| - |suffix|]) else None
  }

  /** The test by which a file in the backup directory counts as one of this document's. */
  predicate IsMine(stem: string, ext: string, name: string) {
    var rest := StripPrefix(name, stem + ".");
    rest.Some? &&
    var stamp := StripSuffix(rest.value, "." + ext);
    stamp.Some? && IsStamp(stamp.value)
  }

  // ---------------------------------------------------------------- names decode

  lemma NameParts(stem: string, stamp: string, ext: string)
    ensures StripPrefix(BackupName(stem, stamp, ext), stem + ".") == Some(stamp + ("." + ext))
    ensures StripSuffix(stamp + ("." + ext), "." + ext) == Some(stamp)
  {
    var name := BackupName(stem, stamp, ext);
    assert name == (stem + ".") + (stamp + ("." + ext));
    assert name[|stem + "."|..] == stamp + ("." + ext);
  }

  /** A name made for one document says which document and which stamp: no other pair makes it. */
  lemma NamesDecode(stem: string, stamp: string, stem': string, stamp': string, ext: string)
    requires IsStamp(stamp) && IsStamp(stamp')
    requires BackupName(stem, stamp, ext) == BackupName(stem', stamp', ext)
    ensures stem == stem' && stamp == stamp'
  {
    var name := BackupName(stem, stamp, ext);
    assert |stem| == |stem'|;
    assert stem == name[..|stem|] == stem';
    NameParts(stem, stamp, ext);
    NameParts(stem', stamp', ext);
  }

  /** What counts as a document's is exactly a name made for it with some stamp. */
  lemma MineAreMade(stem: string, ext: string, name: string)
    ensures IsMine(stem, ext, name) <==> exists stamp :: IsStamp(stamp) && name == BackupName(stem, stamp, ext)
  {
    if IsMine(stem, ext, name) {
      var rest := StripPrefix(name, stem + ".").value;
      var stamp := StripSuffix(rest, "." + ext).value;
      assert name == (stem + ".") + rest;
      assert rest == stamp + ("." + ext);
      assert name == BackupName(stem, stamp, ext);
    }
    if stamp :| IsStamp(stamp) && name == BackupName(stem, stamp, ext) {
      NameParts(stem, stamp, ext);
    }
  }

  /** Document `a` never takes a copy of document `a.b`, or of any other, for its own. */
  lemma NeverAnothers(stem: string, other: string, stamp: string, ext: string)
    requires IsStamp(stamp)
    ensures IsMine(stem, ext, BackupName(other, stamp, ext)) <==> stem == other
  {
    var name := BackupName(other, stamp, ext);
    MineAreMade(stem, ext, name);
    if IsMine(stem, ext, name) {
      var stamp' :| IsStamp(stamp') && name == BackupName(stem, stamp', ext);
      NamesDecode(stem, stamp', other, stamp, ext);
    }
  }

  lemma {:induction false} SharedPrefixKeepsOrder(p: string, a: string, b: string)
    ensures Before(p + a, p + b) <==> Before(a, b)
  {
    if p == "" {
      assert p + a == a && p + b == b;
    } else {
      SharedPrefixKeepsOrder(p[1..], a, b);
      assert (p + a)[1..] == p[1..] + a && (p + b)[1..] == p[1..] + b;
    }
  }

  lemma {:induction false} EqualLengthsDecide(a: string, b: string, s: string)
    requires |a| == |b|
    ensures Before(a + s, b + s) <==> Before(a, b)
  {
    if a == "" {
      BeforeIsStrict(s, s);
      assert a + s == s && b + s == s;
    } else {
      EqualLengthsDecide(a[1..], b[1..], s);
      assert (a + s)[1..] == a[1..] + s && (b + s)[1..] == b[1..] + s;
    }
  }

  /** The names of one document sort as their stamps do. */
  lemma NamesSortByStamp(stem: string, a: string, b: string, ext: string)
    requires IsStamp(a) && IsStamp(b)
    ensures Before(BackupName(stem, a, ext), BackupName(stem, b, ext)) <==> Before(a, b)
  {
    assert BackupName(stem, a, ext) == (stem + ".") + (a + ("." + ext));
    assert BackupName(stem, b, ext) == (stem + ".") + (b + ("." + ext));
    SharedPrefixKeepsOrder(stem + ".", a + ("." + ext), b + ("." + ext));
    EqualLengthsDecide(a, b, "." + ext);
  }

  // ---------------------------------------------------------------- what pruning removes

  function Mine(names: set<string>, stem: string, ext: string): set<string> {
    set n | n in names && IsMine(stem, ext, n)
  }

  /** The document's own names that sort after `name`. */
  function Newer(names: set<string>, stem: string, ext: string, name: string): set<string> {
    set n | n in names && IsMine(stem, ext, n) && Before(name, n)
  }

  /** A name goes when it is the document's own and at least BACKUPS_KEPT of its own sort after it. */
  function Pruned(names: set<string>, stem: string, ext: string): set<string> {
    set n | n in names && IsMine(stem, ext, n) && |Newer(names, stem, ext, n)| >= BACKUPS_KEPT
  }

  predicate Increasing(s: seq<string>) {
    forall i, j :: 0 <= i < j < |s| ==> Before(s[i], s[j])
  }

  function Elements(s: seq<string>): set<string> { set x | x in s }

  /** Insert into a sorted list, as a sort would. */
  function Place(s: seq<string>, x: string): (t: seq<string>)
    requires Increasing(s) && x !in s
    ensures Increasing(t) && Elements(t) == Elements(s) + {x} && |t| == |s| + 1
  {
    if s == [] then [x]
    else if Before(x, s[0]) then
      assert forall k :: 0 <= k < |s| ==> Before(x, s[k]) by {
        forall k | 0 < k < |s| ensures Before(x, s[k]) { BeforeIsTransitive(x, s[0], s[k]); }
      }
      [x] + s
    else
      assert s == [s[0]] + s[1..];
      var t := Place(s[1..], x);
      BeforeIsTotal(x, s[0]);
      assert forall k :: 0 <= k < |t| ==> Before(s[0], t[k]) by {
        forall k | 0 <= k < |t| ensures Before(s[0], t[k]) {
          assert t[k] in Elements(t);
        }
      }
      [s[0]] + t
  }

  lemma {:induction false} Arrange(names: set<string>) returns (s: seq<string>)
    ensures Increasing(s) && Elements(s) == names && |s| == |names|
    decreases |names|
  {
    if names == {} {
      s := [];
    } else {
      var x :| x in names;
      var t := Arrange(names - {x});
      assert x !in Elements(t);
      s := Place(t, x);
    }
  }

  lemma {:induction false} IncreasingCount(s: seq<string>)
    requires Increasing(s)
    ensures |Elements(s)| == |s|
  {
    if s != [] {
      var rest := s[..|s| - 1];
      var last := s[|s| - 1];
      IncreasingCount(rest);
      assert s == rest + [last];
      assert Elements(s) == Elements(rest) + {last};
      forall k | 0 <= k < |rest|
        ensures rest[k] != last
      {
        BeforeIsStrict(rest[k], last);
        assert Before(s[k], s[|s| - 1]);
      }
    }
  }

  /** In a sorted list of a document's names, each has after it those that sort after it. */
  lemma RankFromEnd(names: set<string>, stem: string, ext: string, s: seq<string>, i: nat)
    requires Increasing(s) && Elements(s) == Mine(names, stem, ext) && i < |s|
    ensures |Newer(names, stem, ext, s[i])| == |s| - 1 - i
  {
    hide IsMine;
    var later := s[i + 1..];
    IncreasingCount(later);
    forall k | 0 <= k < |s|
      ensures Before(s[i], s[k]) <==> k > i
    {
      if k <= i {
        BeforeIsStrict(s[k], s[i]);
      }
    }
    forall n
      ensures n in Newer(names, stem, ext, s[i]) <==> n in Elements(later)
    {
      if n in Newer(names, stem, ext, s[i]) {
        assert n in Elements(s);
        var k :| 0 <= k < |s| && s[k] == n;
        assert later[k - (i + 1)] == n;
      }
      if n in later {
        var k :| 0 <= k < |later| && later[k] == n;
        assert s[k + i + 1] == n;
        assert n in Elements(s);
      }
    }
    assert Newer(names, stem, ext, s[i]) == Elements(later);
  }

  /** Removing by rank is removing the front of the sorted list. */
  lemma PrunedIsFront(names: set<string>, stem: string, ext: string, s: seq<string>)
    requires Increasing(s) && Elements(s) == Mine(names, stem, ext)
    ensures Pruned(names, stem, ext) == Elements(s[..if |s| > BACKUPS_KEPT then |s| - BACKUPS_KEPT else 0])
  {
    hide IsMine, Newer;
    var cut := if |s| > BACKUPS_KEPT then |s| - BACKUPS_KEPT else 0;
    forall i | 0 <= i < |s|
      ensures s[i] in Pruned(names, stem, ext) <==> i < cut
    {
      RankFromEnd(names, stem, ext, s, i);
      assert s[i] in Elements(s);
    }
    forall n | n in Pruned(names, stem, ext)
      ensures n in Elements(s[..cut])
    {
      assert n in Elements(s);
      var i :| 0 <= i < |s| && s[i] == n;
      assert s[..cut][i] == n;
    }
    hide Pruned;
    forall n | n in Elements(s[..cut])
      ensures n in Pruned(names, stem, ext)
    {
      var i :| 0 <= i < |s[..cut]| && s[..cut][i] == n;
      assert s[i] == n;
    }
  }

  /** Pruning is exact: it leaves min(k, 20) of the document's k copies, and every copy it removes sorts
    * before every copy it leaves. */
  lemma PruneKeepsNewest(names: set<string>, stem: string, ext: string)
    ensures var mine := Mine(names, stem, ext);
            |mine - Pruned(names, stem, ext)| == if |mine| < BACKUPS_KEPT then |mine| else BACKUPS_KEPT
    ensures forall gone, kept :: gone in Pruned(names, stem, ext) && kept in Mine(names, stem, ext) - Pruned(names, stem, ext)
              ==> Before(gone, kept)
  {
    var s := Arrange(Mine(names, stem, ext));
    PrunedIsFront(names, stem, ext, s);
    hide Mine, Pruned, IsMine, Newer;
    var cut := if |s| > BACKUPS_KEPT then |s| - BACKUPS_KEPT else 0;
    FrontAndBack(s, cut);
    IncreasingCount(s[cut..]);
  }

  lemma FrontAndBack(s: seq<string>, cut: nat)
    requires Increasing(s) && cut <= |s|
    ensures Elements(s) - Elements(s[..cut]) == Elements(s[cut..])
    ensures forall a, b :: a in Elements(s[..cut]) && b in Elements(s[cut..]) ==> Before(a, b)
    ensures Increasing(s[cut..])
  {
    forall a, b | a in Elements(s[..cut]) && b in Elements(s[cut..])
      ensures Before(a, b) && a != b
    {
      var i :| 0 <= i < cut && s[..cut][i] == a;
      var j :| 0 <= j < |s| - cut && s[cut..][j] == b;
      assert s[i] == a && s[cut + j] == b;
      BeforeIsStrict(a, b);
    }
    assert s == s[..cut] + s[cut..];
  }
}
