/** Strings as the stores use them: ordering, trimming, and names that are safe as file names. A char is
  * one code point; comparing code points gives the same order as comparing UTF-8 bytes.
  */
module Text {

  /** a sorts strictly before b. */
  predicate Before(a: string, b: string) {
    if b == "" then false
    else if a == "" then true
    else a[0] < b[0] || (a[0] == b[0] && Before(a[1..], b[1..]))
  }

  lemma {:induction false} BeforeIsStrict(a: string, b: string)
    ensures !(Before(a, b) && Before(b, a))
    ensures !Before(a, a)
  {
    if a != "" {
      if b != "" && a[0] == b[0] {
        BeforeIsStrict(a[1..], b[1..]);
      }
      BeforeIsStrict(a[1..], a[1..]);
    }
  }

  lemma {:induction false} BeforeIsTransitive(a: string, b: string, c: string)
    requires Before(a, b) && Before(b, c)
    ensures Before(a, c)
  {
    if a != "" && a[0] == b[0] && b[0] == c[0] {
      BeforeIsTransitive(a[1..], b[1..], c[1..]);
    }
  }

  lemma {:induction false} BeforeIsTotal(a: string, b: string)
    ensures a == b || Before(a, b) || Before(b, a)
  {
    if a != "" && b != "" && a[0] == b[0] {
      BeforeIsTotal(a[1..], b[1..]);
      assert a == [a[0]] + a[1..] && b == [b[0]] + b[1..];
    }
  }

  /** A longer string sorts after each of its proper prefixes. */
  lemma {:induction false} PrefixIsBefore(a: string, more: string)
    requires more != ""
    ensures Before(a, a + more)
  {
    if a != "" {
      PrefixIsBefore(a[1..], more);
      assert (a + more)[1..] == a[1..] + more;
    }
  }

  /** Neither strictly before: the order of equal versions. */
  predicate NotAfter(a: string, b: string) { a == b || Before(a, b) }

  lemma NotAfterIsTransitive(a: string, b: string, c: string)
    requires NotAfter(a, b) && NotAfter(b, c)
    ensures NotAfter(a, c)
  {
    if a != b && b != c {
      BeforeIsTransitive(a, b, c);
    }
  }

  // ---------------------------------------------------------------- version stamps

  /** The clock's text where it is later than `previous`; otherwise `previous` with a tilde, which is later. */
  function NextStamp(previous: string, clock: string): string {
    if NotAfter(clock, previous) then previous + "~" else clock
  }

  /** Whatever the clock says, the next stamp sorts strictly after the previous one, and it is what the clock says
    * exactly when that is later. */
  lemma NextStampGrows(previous: string, clock: string)
    ensures Before(previous, NextStamp(previous, clock))
    ensures NextStamp(previous, clock) == clock <==> Before(previous, clock)
    ensures NextStamp(previous, clock) in [clock, previous + "~"]
  {
    BeforeIsStrict(previous, clock);
    BeforeIsStrict(previous, previous);
    BeforeIsTotal(previous, clock);
    PrefixIsBefore(previous, "~");
  }

  // ---------------------------------------------------------------- trimming

  predicate IsSpace(c: char) {
    var n := c as int;
    || 0x09 <= n <= 0x0D || n == 0x20 || n == 0x85 || n == 0xA0 || n == 0x1680
    || 0x2000 <= n <= 0x200A || n == 0x2028 || n == 0x2029 || n == 0x202F || n == 0x205F || n == 0x3000
  }

  function TrimStart(s: string): (t: string)
    ensures |t| <= |s|
    ensures t == "" || !IsSpace(t[0])
  {
    if s == "" || !IsSpace(s[0]) then s else TrimStart(s[1..])
  }

  function TrimEnd(s: string): (t: string)
    ensures |t| <= |s|
    ensures t == s[..|t|]
    ensures t == "" || !IsSpace(t[|t| - 1])
  {
    if s == "" || !IsSpace(s[|s| - 1]) then s else TrimEnd(s[..|s| - 1])
  }

  function Trim(s: string): (t: string)
    ensures |t| <= |s|
    ensures t == "" || (!IsSpace(t[0]) && !IsSpace(t[|t| - 1]))
  {
    TrimEnd(TrimStart(s))
  }

  predicate Blank(s: string) { Trim(s) == "" }

  predicate AllSpace(s: string) { forall k :: 0 <= k < |s| ==> IsSpace(s[k]) }

  lemma {:induction false} StartDropsSpace(s: string) returns (front: string)
    ensures s == front + TrimStart(s) && AllSpace(front)
  {
    if s == "" || !IsSpace(s[0]) {
      front := "";
    } else {
      var rest := StartDropsSpace(s[1..]);
      front := [s[0]] + rest;
      assert s == [s[0]] + s[1..];
    }
  }

  lemma {:induction false} EndDropsSpace(s: string) returns (back: string)
    ensures s == TrimEnd(s) + back && AllSpace(back)
  {
    if s == "" || !IsSpace(s[|s| - 1]) {
      back := "";
    } else {
      var rest := EndDropsSpace(s[..|s| - 1]);
      back := rest + [s[|s| - 1]];
      assert s == s[..|s| - 1] + [s[|s| - 1]];
    }
  }

  /** Trimming drops the spaces before and after, and nothing else. */
  lemma TrimDropsOuterSpace(s: string) returns (front: string, back: string)
    ensures s == front + Trim(s) + back && AllSpace(front) && AllSpace(back)
    ensures Trim(s) == "" || (!IsSpace(Trim(s)[0]) && !IsSpace(Trim(s)[|Trim(s)| - 1]))
    ensures Blank(s) <==> AllSpace(s)
  {
    front := StartDropsSpace(s);
    back := EndDropsSpace(TrimStart(s));
    if Trim(s) != "" {
      assert s[|front|] == Trim(s)[0];
    }
  }

  lemma TrimIsIdempotent(s: string)
    ensures Trim(Trim(s)) == Trim(s)
  {
  }

  // ---------------------------------------------------------------- file names

  const WINDOWS_RESERVED_NAMES: seq<string> := [
    "CON", "PRN", "AUX", "NUL", "COM1", "COM2", "COM3", "COM4", "COM5", "COM6", "COM7", "COM8", "COM9",
    "LPT1", "LPT2", "LPT3", "LPT4", "LPT5", "LPT6", "LPT7", "LPT8", "LPT9"]

  function Upper(c: char): char {
    if 'a' <= c <= 'z' then (c as int - 32) as char else c
  }

  predicate SameIgnoringCase(a: string, b: string) {
    |a| == |b| && forall k :: 0 <= k < |a| ==> Upper(a[k]) == Upper(b[k])
  }

  /** What comes before the first dot. */
  function FirstPart(s: string): string {
    if s == "" || s[0] == '.' then "" else [s[0]] + FirstPart(s[1..])
  }

  predicate IsControl(c: char) {
    c as int <= 0x1F || 0x7F <= c as int <= 0x9F
  }

  predicate PathSafe(s: string) {
    && !Blank(s) && s != "." && s != ".."
    && (forall k :: 0 <= k < |s| ==>
          s[k] !in ['/', '\\', '<', '>', ':', '\"', '|', '?', '*'] && !IsControl(s[k]))
    && s[|s| - 1] != '.' && s[|s| - 1] != ' '
    && (forall k :: 0 <= k < |WINDOWS_RESERVED_NAMES| ==>
          !SameIgnoringCase(FirstPart(s), WINDOWS_RESERVED_NAMES[k]))
  }
}
