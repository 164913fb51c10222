/** The ids the stores make: hexadecimal clock and counter readings, tried until one is free. */
module Ids {

  import opened Text

  function HexDigit(n: nat): (c: char)
    requires n < 16
    ensures '0' <= c <= '9' || 'a' <= c <= 'f'
  {
    if n < 10 then '0' + n as char else 'a' + (n - 10) as char
  }

  predicate IsHex(s: string) {
    s != "" && forall k :: 0 <= k < |s| ==> '0' <= s[k] <= '9' || 'a' <= s[k] <= 'f'
  }

  function Hex(n: nat): (s: string)
    ensures IsHex(s)
  {
    if n < 16 then [HexDigit(n)] else Hex(n / 16) + [HexDigit(n % 16)]
  }

  function BlueprintId(micros: nat, n: nat): string {
    "bp-" + Hex(micros) + "-" + Hex(n)
  }

  function AssignmentId(micros: nat, n: nat): string {
    "a" + Hex(micros) + Hex(n)
  }

  // ---------------------------------------------------------------- safe as file names

  predicate Plain(c: char) {
    c == '-' || '0' <= c <= '9' || 'a' <= c <= 'z'
  }

  lemma {:induction false} NoDotNoCut(s: string)
    requires forall k :: 0 <= k < |s| ==> s[k] != '.'
    ensures FirstPart(s) == s
  {
    if s != "" {
      NoDotNoCut(s[1..]);
      assert s == [s[0]] + s[1..];
    }
  }

  /** What tells the made ids from every reserved device name. */
  lemma ReservedShapes()
    ensures forall k :: 0 <= k < |WINDOWS_RESERVED_NAMES| ==>
              var name := WINDOWS_RESERVED_NAMES[k];
              |name| >= 3 && 'A' <= name[0] <= 'Z' && name[0] != 'B' && (name[0] == 'A' ==> name[1] == 'U')
  {
  }

  lemma PlainIsNotReserved(s: string)
    requires |s| >= 2 && Plain(s[1])
    requires s[0] == 'b' || (s[0] == 'a' && s[1] != 'u')
    ensures forall k :: 0 <= k < |WINDOWS_RESERVED_NAMES| ==> !SameIgnoringCase(s, WINDOWS_RESERVED_NAMES[k])
  {
    hide SameIgnoringCase;
    ReservedShapes();
    forall k | 0 <= k < |WINDOWS_RESERVED_NAMES|
      ensures !SameIgnoringCase(s, WINDOWS_RESERVED_NAMES[k])
    {
      StartsDiffer(s, WINDOWS_RESERVED_NAMES[k]);
    }
  }

  lemma PlainIsNotTrimmed(s: string)
    requires s != "" && Plain(s[0]) && Plain(s[|s| - 1])
    ensures !Blank(s)
  {
    assert TrimStart(s) == s;
    assert TrimEnd(s) == s;
  }

  lemma PlainIsSafe(s: string)
    requires |s| >= 2 && forall k :: 0 <= k < |s| ==> Plain(s[k])
    requires s[0] == 'b' || (s[0] == 'a' && s[1] != 'u')
    ensures PathSafe(s)
  {
    NoDotNoCut(s);
    PlainIsNotTrimmed(s);
    PlainIsNotReserved(s);
    hide SameIgnoringCase, Blank, FirstPart;
  }

  lemma StartsDiffer(s: string, name: string)
    requires |s| >= 2 && Plain(s[1]) && (s[0] == 'b' || (s[0] == 'a' && s[1] != 'u'))
    requires |name| >= 3 && name[0] != 'B' && (name[0] == 'A' ==> name[1] == 'U')
    requires 'A' <= name[0] <= 'Z'
    ensures !SameIgnoringCase(s, name)
  {
  }

  /** Every id the stores make can be a file name. */
  lemma MadeIdsAreSafe(micros: nat, n: nat)
    ensures PathSafe(BlueprintId(micros, n)) && PathSafe(AssignmentId(micros, n))
  {
    PlainIsSafe(BlueprintId(micros, n));
    PlainIsSafe(AssignmentId(micros, n));
  }

  // ---------------------------------------------------------------- trying until one is free

  /** A dash followed by hexadecimal digits splits a name in one way only. */
  lemma LastDashSplits(a: string, h: string, a': string, h': string)
    requires IsHex(h) && IsHex(h')
    requires a + "-" + h == a' + "-" + h'
    ensures a == a' && h == h'
  {
    var s := a + "-" + h;
    assert s[|a|] == '-' && s[|a'|] == '-';
    assert forall k :: |a| < k < |s| ==> s[k] == h[k - |a| - 1];
    assert forall k :: |a'| < k < |s| ==> s[k] == h'[k - |a'| - 1];
    assert |a| == |a'|;
    assert a == s[..|a|] == a';
    assert h == s[|a| + 1..] == h';
  }

  lemma HexLength(n: nat)
    ensures |Hex(n)| >= 2 <==> n >= 16
  {
    if n >= 16 {
      assert Hex(n / 16) != "";
    }
  }

  lemma {:induction false} HexTellsNumbers(m: nat, n: nat)
    requires Hex(m) == Hex(n)
    ensures m == n
  {
    HexLength(m);
    HexLength(n);
    if m >= 16 {
      assert Hex(m)[..|Hex(m)| - 1] == Hex(m / 16) && Hex(n)[..|Hex(n)| - 1] == Hex(n / 16);
      assert Hex(m)[|Hex(m)| - 1] == HexDigit(m % 16) && Hex(n)[|Hex(n)| - 1] == HexDigit(n % 16);
      HexTellsNumbers(m / 16, n / 16);
    }
  }

  /** A blueprint id gives its counter away. */
  lemma BlueprintIdTellsCounter(m: nat, n: nat, m': nat, n': nat)
    requires BlueprintId(m, n) == BlueprintId(m', n')
    ensures n == n'
  {
    assert BlueprintId(m, n) == ("bp-" + Hex(m)) + "-" + Hex(n);
    assert BlueprintId(m', n') == ("bp-" + Hex(m')) + "-" + Hex(n');
    LastDashSplits("bp-" + Hex(m), Hex(n), "bp-" + Hex(m'), Hex(n'));
    HexTellsNumbers(n, n');
  }

  /** An assignment id gives its counter away once it is known where the counter begins. */
  lemma AssignmentIdTellsCounter(m: nat, n: nat, m': nat, n': nat)
    requires AssignmentId(m, n) == AssignmentId(m', n') && |Hex(n)| == |Hex(n')|
    ensures n == n'
  {
    var id := AssignmentId(m, n);
    assert id[|id| - |Hex(n)|..] == Hex(n);
    assert AssignmentId(m', n')[|id| - |Hex(n)|..] == Hex(n');
    HexTellsNumbers(n, n');
  }

  lemma SmallerSet<T>(a: set<T>, b: set<T>)
    requires a <= b
    ensures |a| <= |b|
  {
    assert b == a + (b - a);
  }

  /** Try counter after counter, reading the clock each time, until the id is free. Whatever the clock reads, each
    * taken id can be hit by one counter only, so one try more than there are taken ids is enough. */
  method NewBlueprintId(taken: set<string>, clock: nat -> nat, start: nat) returns (id: string, counter: nat)
    ensures id !in taken && PathSafe(id)
    ensures start < counter <= start + |taken| + 1
    ensures id == BlueprintId(clock(counter - 1), counter - 1)
  {
    counter := start;
    ghost var hit: set<string> := {};
    while true
      invariant counter >= start && hit <= taken && |hit| == counter - start
      invariant forall x :: x in hit ==> exists m: nat, n: nat :: n < counter && x == BlueprintId(m, n)
      decreases taken - hit
    {
      id := BlueprintId(clock(counter), counter);
      MadeIdsAreSafe(clock(counter), counter);
      SmallerSet(hit, taken);
      if id in hit {
        var m: nat, n: nat :| n < counter && id == BlueprintId(m, n);
        BlueprintIdTellsCounter(clock(counter), counter, m, n);
      }
      counter := counter + 1;
      if id !in taken {
        return;
      }
      hit := hit + {id};
    }
  }

  /** The places in the taken ids. */
  ghost function Places(taken: set<string>): set<(string, nat)> {
    set x, k: nat | x in taken && k <= |x| :: (x, k)
  }

  /** The same for assignment ids, where clock and counter are not set apart: each taken id can be hit by no more
    * counters than it has places for one to begin. */
  method NewAssignmentId(taken: set<string>, clock: nat -> nat, start: nat) returns (id: string, counter: nat)
    ensures id !in taken && PathSafe(id)
    ensures start < counter <= start + |Places(taken)| + 1
    ensures id == AssignmentId(clock(counter - 1), counter - 1)
  {
    counter := start;
    ghost var hit: set<(string, nat)> := {};
    while true
      invariant counter >= start && hit <= Places(taken) && |hit| == counter - start
      invariant forall p :: p in hit ==> exists m: nat, n: nat :: n < counter && p == (AssignmentId(m, n), |Hex(n)|)
      decreases Places(taken) - hit
    {
      id := AssignmentId(clock(counter), counter);
      MadeIdsAreSafe(clock(counter), counter);
      SmallerSet(hit, Places(taken));
      ghost var place := (id, |Hex(counter)|);
      if place in hit {
        var m: nat, n: nat :| n < counter && place == (AssignmentId(m, n), |Hex(n)|);
        AssignmentIdTellsCounter(clock(counter), counter, m, n);
      }
      counter := counter + 1;
      if id !in taken {
        return;
      }
      assert place in Places(taken);
      hit := hit + {place};
    }
  }

  // ---------------------------------------------------------------- whose copy is whose

  /** The stems under which the stores keep copies of what they replace. */
  function BlueprintStem(project: string, id: string): string {
    "blueprint-" + project + "-" + id
  }

  function AssignmentStem(project: string, id: string): string {
    "assignment-" + project + "-" + id
  }

  function ConnectionsStem(project: string): string {
    "connections-" + project
  }

  /** The stores share one directory of copies and never share a stem in it. */
  lemma StoresNeverShareStems(p: string, id: string, p': string, id': string, p'': string)
    ensures BlueprintStem(p, id) != AssignmentStem(p', id')
    ensures BlueprintStem(p, id) != ConnectionsStem(p'') && AssignmentStem(p', id') != ConnectionsStem(p'')
    ensures ConnectionsStem(p) == ConnectionsStem(p') ==> p == p'
  {
    assert BlueprintStem(p, id)[0] == 'b' && AssignmentStem(p', id')[0] == 'a' && ConnectionsStem(p'')[0] == 'c';
    assert ConnectionsStem(p)[12..] == p && ConnectionsStem(p')[12..] == p';
  }

  /** Two blueprints, of the same project or of two, never share a stem, so pruning the copies of one
    * never touches those of the other. Project ids may hold dashes of their own. */
  lemma BlueprintStemsDiffer(p: string, m: nat, n: nat, p': string, m': nat, n': nat)
    requires BlueprintStem(p, BlueprintId(m, n)) == BlueprintStem(p', BlueprintId(m', n'))
    ensures p == p' && BlueprintId(m, n) == BlueprintId(m', n')
  {
    hide IsHex;
    var a, a' := "blueprint-" + p + "-bp", "blueprint-" + p' + "-bp";
    assert BlueprintStem(p, BlueprintId(m, n)) == (a + "-" + Hex(m)) + "-" + Hex(n);
    assert BlueprintStem(p', BlueprintId(m', n')) == (a' + "-" + Hex(m')) + "-" + Hex(n');
    LastDashSplits(a + "-" + Hex(m), Hex(n), a' + "-" + Hex(m'), Hex(n'));
    LastDashSplits(a, Hex(m), a', Hex(m'));
    assert p == a[10..|a| - 3] && p' == a'[10..|a'| - 3];
  }

  lemma AssignmentStemsDiffer(p: string, m: nat, n: nat, p': string, m': nat, n': nat)
    requires AssignmentStem(p, AssignmentId(m, n)) == AssignmentStem(p', AssignmentId(m', n'))
    ensures p == p' && AssignmentId(m, n) == AssignmentId(m', n')
  {
    var a, a' := "assignment-" + p, "assignment-" + p';
    var h, h' := AssignmentId(m, n), AssignmentId(m', n');
    assert IsHex(h) && IsHex(h');
    hide Hex, IsHex, AssignmentId;
    LastDashSplits(a, h, a', h');
    assert p == a[11..] && p' == a'[11..];
  }
}
