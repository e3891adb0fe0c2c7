/**
 * The JavaScript string operations the permit checker relies on, over
 * `string` (= `seq<char>`): `indexOf`, `replace` with a string pattern,
 * `split` with a string separator, `join` and `trim`.
 */
module Text {
  import opened Wrappers

  /**
   * A string-valued field of a JSON object; `None` is a missing key
   * (`undefined`). Fields holding `null`, numbers or other non-strings are
   * not represented.
   */
  type Field = Option<string>

  /** JavaScript truthiness of such a field: present and not empty. */
  predicate Truthy(f: Field) {
    f.Some? && f.value != ""
  }

  /** `pat` occurs in `s` starting at index `i`. */
  predicate OccursAt(s: string, i: nat, pat: string) {
    i + |pat| <= |s| && s[i..i + |pat|] == pat
  }

  /** `pat` occurs somewhere in `s`. */
  ghost predicate Contains(s: string, pat: string) {
    exists i: nat :: OccursAt(s, i, pat)
  }

  /** An occurrence in `s[1..]` is an occurrence in `s`, one position later. */
  lemma OccursShift(s: string, i: nat, pat: string)
    requires s != []
    ensures OccursAt(s[1..], i, pat) <==> OccursAt(s, i + 1, pat)
  {
    if i + 1 + |pat| <= |s| {
      assert s[1..][i..i + |pat|] == s[i + 1..i + 1 + |pat|];
    }
  }

  /** `s.indexOf(pat)`: the leftmost position where `pat` occurs, if any. */
  function IndexOf(s: string, pat: string): (r: Option<nat>)
    ensures r.Some? ==> r.value + |pat| <= |s|
    decreases |s|
  {
    if OccursAt(s, 0, pat) then Some(0)
    else if s == [] then None
    else
      match IndexOf(s[1..], pat)
      case None => None
      case Some(k) => Some(k + 1)
  }

  /**
   * `IndexOf` finds an occurrence exactly when there is one, and that
   * occurrence is the leftmost.
   */
  lemma {:induction false} IndexOfSpec(s: string, pat: string)
    ensures IndexOf(s, pat).None? <==> !Contains(s, pat)
    ensures IndexOf(s, pat).Some? ==> OccursAt(s, IndexOf(s, pat).value, pat)
    ensures IndexOf(s, pat).Some? ==> forall i: nat :: i < IndexOf(s, pat).value ==> !OccursAt(s, i, pat)
    decreases |s|
  {
    if OccursAt(s, 0, pat) {
    } else if s == [] {
      assert forall i: nat :: OccursAt(s, i, pat) ==> i == 0;
    } else {
      IndexOfSpec(s[1..], pat);
      assert forall i: nat :: OccursAt(s[1..], i, pat) <==> OccursAt(s, i + 1, pat) by {
        forall i: nat ensures OccursAt(s[1..], i, pat) <==> OccursAt(s, i + 1, pat) {
          OccursShift(s, i, pat);
        }
      }
      assert Contains(s, pat) ==> Contains(s[1..], pat) by {
        if Contains(s, pat) {
          var i: nat :| OccursAt(s, i, pat);
          assert i != 0;
          assert OccursAt(s[1..], i - 1, pat);
        }
      }
      match IndexOf(s[1..], pat)
      case None =>
      case Some(k) =>
        assert forall i: nat :: i < k + 1 ==> !OccursAt(s, i, pat) by {
          forall i: nat | 0 < i < k + 1 ensures !OccursAt(s, i, pat) {
            OccursShift(s, i - 1, pat);
          }
        }
    }
  }

  /**
   * `s.replace(pat, rep)` where `pat` is a string and `rep` holds no `$`: the
   * first (leftmost) occurrence of `pat`, wherever it is, becomes `rep`; the
   * rest of `s` is kept. JavaScript would expand `$&`, `$$`, `` $` `` and `$'`
   * in `rep`; here `rep` is inserted as it is.
   */
  function ReplaceFirst(s: string, pat: string, rep: string): string
    decreases |s|
  {
    if OccursAt(s, 0, pat) then rep + s[|pat|..]
    else if s == [] then s
    else [s[0]] + ReplaceFirst(s[1..], pat, rep)
  }

  /** `ReplaceFirst` agrees with a definition through `IndexOf`. */
  lemma {:induction false} ReplaceFirstSpec(s: string, pat: string, rep: string)
    ensures IndexOf(s, pat).None? ==> ReplaceFirst(s, pat, rep) == s
    ensures IndexOf(s, pat).Some? ==>
      var k := IndexOf(s, pat).value;
      ReplaceFirst(s, pat, rep) == s[..k] + rep + s[k + |pat|..]
    decreases |s|
  {
    if OccursAt(s, 0, pat) {
      ReplaceFirstAtStart(s, pat, rep);
    } else if s != [] {
      ReplaceFirstSpec(s[1..], pat, rep);
      ReplaceFirstSkip(s, pat, rep);
    } else {
      assert IndexOf(s, pat).None?;
    }
  }

  /** An occurrence at the very start is the one replaced. */
  lemma ReplaceFirstAtStart(s: string, pat: string, rep: string)
    requires OccursAt(s, 0, pat)
    ensures IndexOf(s, pat) == Some(0)
    ensures ReplaceFirst(s, pat, rep) == s[..0] + rep + s[0 + |pat|..]
  {
    assert s[..0] + rep + s[0 + |pat|..] == rep + s[|pat|..];
  }

  /** The inductive step of `ReplaceFirstSpec`: past a first character that does not start `pat`. */
  lemma ReplaceFirstSkip(s: string, pat: string, rep: string)
    requires s != [] && !OccursAt(s, 0, pat)
    requires IndexOf(s[1..], pat).None? ==> ReplaceFirst(s[1..], pat, rep) == s[1..]
    requires IndexOf(s[1..], pat).Some? ==>
      var k := IndexOf(s[1..], pat).value;
      ReplaceFirst(s[1..], pat, rep) == s[1..][..k] + rep + s[1..][k + |pat|..]
    ensures IndexOf(s, pat).None? ==> ReplaceFirst(s, pat, rep) == s
    ensures IndexOf(s, pat).Some? ==>
      var k := IndexOf(s, pat).value;
      ReplaceFirst(s, pat, rep) == s[..k] + rep + s[k + |pat|..]
  {
    IndexOfStep(s, pat);
    if IndexOf(s[1..], pat).Some? {
      var k := IndexOf(s[1..], pat).value;
      ReplaceFirstShift(s, pat, rep, k);
      assert IndexOf(s, pat) == Some(k + 1);
    } else {
      ReplaceFirstShiftNone(s, pat, rep);
      assert IndexOf(s, pat).None?;
    }
  }

  /** A replacement made in `s[1..]` at `k` is the replacement in `s` at `k + 1`. */
  lemma ReplaceFirstShift(s: string, pat: string, rep: string, k: nat)
    requires s != [] && !OccursAt(s, 0, pat) && k + |pat| <= |s| - 1
    requires ReplaceFirst(s[1..], pat, rep) == s[1..][..k] + rep + s[1..][k + |pat|..]
    ensures ReplaceFirst(s, pat, rep) == s[..k + 1] + rep + s[k + 1 + |pat|..]
  {
    assert ReplaceFirst(s, pat, rep) == [s[0]] + ReplaceFirst(s[1..], pat, rep);
    SpliceShift(s, k, |pat|, rep);
  }

  /** With nothing replaced in `s[1..]`, nothing is replaced in `s`. */
  lemma ReplaceFirstShiftNone(s: string, pat: string, rep: string)
    requires s != [] && !OccursAt(s, 0, pat)
    requires ReplaceFirst(s[1..], pat, rep) == s[1..]
    ensures ReplaceFirst(s, pat, rep) == s
  {
    assert ReplaceFirst(s, pat, rep) == [s[0]] + s[1..];
    assert [s[0]] + s[1..] == s;
  }

  /** Past a first character that does not start `pat`, the search goes on one position later. */
  lemma IndexOfStep(s: string, pat: string)
    requires s != [] && !OccursAt(s, 0, pat)
    ensures IndexOf(s, pat).None? <==> IndexOf(s[1..], pat).None?
    ensures IndexOf(s[1..], pat).Some? ==> IndexOf(s, pat) == Some(IndexOf(s[1..], pat).value + 1)
  {
  }

  /** Putting the first character back in front of a splice made in `s[1..]`. */
  lemma SpliceShift(s: string, k: nat, n: nat, rep: string)
    requires s != [] && k + n <= |s| - 1
    ensures [s[0]] + (s[1..][..k] + rep + s[1..][k + n..]) == s[..k + 1] + rep + s[k + 1 + n..]
  {
    assert s[1..][..k] == s[1..k + 1];
    assert s[1..][k + n..] == s[k + 1 + n..];
    assert [s[0]] + s[1..k + 1] == s[..k + 1];
  }

  /** When the first occurrence of `pat` in `a + pat + b` is the one after `a`, only it is replaced. */
  lemma ReplaceFirstAfter(a: string, b: string, pat: string, rep: string)
    requires forall i: nat :: i < |a| ==> !OccursAt(a + pat + b, i, pat)
    ensures ReplaceFirst(a + pat + b, pat, rep) == a + rep + b
  {
    var s := a + pat + b;
    assert OccursAt(s, |a|, pat) by { assert s[|a|..|a| + |pat|] == pat; }
    ReplaceFirstSpec(s, pat, rep);
    IndexOfSpec(s, pat);
    assert IndexOf(s, pat) == Some(|a|);
    assert s[..|a|] == a && s[|a| + |pat|..] == b;
  }

  /** `parts.join(sep)`. */
  function Join(parts: seq<string>, sep: string): string
    decreases |parts|
  {
    if |parts| == 0 then ""
    else if |parts| == 1 then parts[0]
    else parts[0] + sep + Join(parts[1..], sep)
  }

  /**
   * `s.split(sep)` for a non-empty string separator: scanning from the left,
   * every occurrence of `sep` ends one piece and the text after it starts the
   * next, so `n` occurrences give `n + 1` pieces, some possibly empty.
   */
  function Split(s: string, sep: string): (parts: seq<string>)
    requires sep != []
    ensures |parts| >= 1
    decreases |s|
  {
    if OccursAt(s, 0, sep) then [""] + Split(s[|sep|..], sep)
    else if s == [] then [""]
    else
      var rest := Split(s[1..], sep);
      [[s[0]] + rest[0]] + rest[1..]
  }

  /** Joining the pieces with the separator gives back the string. */
  lemma {:induction false} SplitJoin(s: string, sep: string)
    requires sep != []
    ensures Join(Split(s, sep), sep) == s
    decreases |s|
  {
    if OccursAt(s, 0, sep) {
      var tail := s[|sep|..];
      SplitJoin(tail, sep);
      JoinCons("", Split(tail, sep), sep);
      assert s == sep + tail;
    } else if s != [] {
      SplitJoin(s[1..], sep);
      JoinExtendFirst(s[0], Split(s[1..], sep), sep);
      assert s == [s[0]] + s[1..];
    }
  }

  /** Joining a leading part onto a nonempty list puts one separator between them. */
  lemma JoinCons(x: string, parts: seq<string>, sep: string)
    requires parts != []
    ensures Join([x] + parts, sep) == x + sep + Join(parts, sep)
  {
    assert ([x] + parts)[1..] == parts;
  }

  /** Putting one more character at the front of the first part puts it at the front of the joined string. */
  lemma JoinExtendFirst(c: char, parts: seq<string>, sep: string)
    requires parts != []
    ensures Join([[c] + parts[0]] + parts[1..], sep) == [c] + Join(parts, sep)
  {
    var head := [c] + parts[0];
    if |parts| > 1 {
      assert ([head] + parts[1..])[1..] == parts[1..];
    }
  }

  /** A string with no occurrence of `sep` is one piece. */
  lemma {:induction false} SplitWhole(a: string, sep: string)
    requires sep != [] && !Contains(a, sep)
    ensures Split(a, sep) == [a]
    decreases |a|
  {
    if a != [] {
      assert !OccursAt(a, 0, sep);
      assert !Contains(a[1..], sep) by {
        if Contains(a[1..], sep) {
          var i: nat :| OccursAt(a[1..], i, sep);
          OccursShift(a, i, sep);
        }
      }
      SplitWhole(a[1..], sep);
      assert [a[0]] + a[1..] == a;
    } else {
      assert !OccursAt(a, 0, sep);
    }
  }

  /** When `sep` first occurs right after `a`, `a` is the first piece. */
  lemma {:induction false} SplitAfter(a: string, rest: string, sep: string)
    requires sep != []
    requires forall i: nat :: i < |a| ==> !OccursAt(a + sep + rest, i, sep)
    ensures Split(a + sep + rest, sep) == [a] + Split(rest, sep)
    decreases |a|
  {
    var s := a + sep + rest;
    if a == [] {
      assert s == sep + rest;
      assert OccursAt(s, 0, sep);
      assert s[|sep|..] == rest;
    } else {
      assert !OccursAt(s, 0, sep);
      assert s[1..] == a[1..] + sep + rest;
      forall i: nat | i < |a[1..]| ensures !OccursAt(a[1..] + sep + rest, i, sep) {
        OccursShift(s, i, sep);
      }
      SplitAfter(a[1..], rest, sep);
      assert [a[0]] + a[1..] == a;
    }
  }

  /** No proper suffix of `sep` is also a prefix of it, so two occurrences never overlap. */
  predicate BorderFree(sep: string) {
    forall k :: 0 < k < |sep| ==> sep[k..] != sep[..|sep| - k]
  }

  /** With a border-free separator, a piece free of it cannot start an occurrence that runs into the next separator. */
  lemma NoStraddle(a: string, rest: string, sep: string)
    requires BorderFree(sep) && !Contains(a, sep)
    ensures forall i: nat :: i < |a| ==> !OccursAt(a + sep + rest, i, sep)
  {
    var s := a + sep + rest;
    forall i: nat | i < |a| ensures !OccursAt(s, i, sep) {
      if i + |sep| <= |a| {
        assert a[i..i + |sep|] == s[i..i + |sep|];
        assert !OccursAt(a, i, sep);
      } else {
        var k := |a| - i;
        assert s[|a|..|a| + |sep|] == sep;
        assert s[i..i + |sep|][k..] == s[|a|..i + |sep|] == sep[..|sep| - k];
        assert sep[k..] != sep[..|sep| - k];
      }
    }
  }

  /** The characters `String.prototype.trim` removes: ECMAScript WhiteSpace and LineTerminator. */
  predicate IsSpace(c: char) {
    || c == '\t' || c == '\n' || c == '\U{B}' || c == '\U{C}' || c == '\r' || c == ' '
    || c == '\U{A0}' || c == '\U{1680}' || ('\U{2000}' <= c <= '\U{200A}')
    || c == '\U{2028}' || c == '\U{2029}' || c == '\U{202F}' || c == '\U{205F}'
    || c == '\U{3000}' || c == '\U{FEFF}'
  }

  /** Every character of `s` is whitespace in the sense of `String.prototype.trim`. */
  predicate AllSpace(s: string) {
    forall i :: 0 <= i < |s| ==> IsSpace(s[i])
  }

  /** Drops leading white space. */
  function TrimStart(s: string): string
    decreases |s|
  {
    if s != [] && IsSpace(s[0]) then TrimStart(s[1..]) else s
  }

  /** What `TrimStart` drops is a white-space prefix of `s`, and what it keeps does not start with white space. */
  lemma {:induction false} TrimStartSpec(s: string)
    ensures var r := TrimStart(s);
      && |r| <= |s| && r == s[|s| - |r|..]
      && AllSpace(s[..|s| - |r|])
      && (r == [] || !IsSpace(r[0]))
    decreases |s|
  {
    if s != [] && IsSpace(s[0]) {
      TrimStartSpec(s[1..]);
      var r := TrimStart(s);
      var n := |s| - |r|;
      assert s[1..][..n - 1] == s[1..n];
      assert forall i :: 1 <= i < n ==> s[..n][i] == s[1..n][i - 1];
    }
  }

  /** Drops trailing white space. */
  function TrimEnd(s: string): string
    decreases |s|
  {
    if s != [] && IsSpace(s[|s| - 1]) then TrimEnd(s[..|s| - 1]) else s
  }

  /** What `TrimEnd` drops is a white-space suffix of `s`, and what it keeps does not end with white space. */
  lemma {:induction false} TrimEndSpec(s: string)
    ensures var r := TrimEnd(s);
      && |r| <= |s| && r == s[..|r|]
      && AllSpace(s[|r|..])
      && (r == [] || !IsSpace(r[|r| - 1]))
    decreases |s|
  {
    if s != [] && IsSpace(s[|s| - 1]) {
      var init := s[..|s| - 1];
      TrimEndSpec(init);
      var r := TrimEnd(s);
      assert init[..|r|] == s[..|r|];
      assert forall i :: |r| <= i < |s| - 1 ==> s[i] == init[i];
    }
  }

  /** `s.trim()`. */
  function Trim(s: string): string {
    TrimEnd(TrimStart(s))
  }

  /** `s.trim()` is a slice of `s` between white space, and neither starts nor ends with white space. */
  lemma TrimSpec(s: string)
    ensures var r := Trim(s);
      && (r == [] || (!IsSpace(r[0]) && !IsSpace(r[|r| - 1])))
      && exists i, j :: 0 <= i <= j <= |s| && r == s[i..j] && AllSpace(s[..i]) && AllSpace(s[j..])
  {
    var t := TrimStart(s);
    TrimStartSpec(s);
    TrimEndSpec(t);
    BetweenSpaces(s, t, TrimEnd(t));
  }

  /** A slice of a slice, each cut between white space, is cut from the whole between white space. */
  lemma BetweenSpaces(s: string, t: string, r: string)
    requires |t| <= |s| && t == s[|s| - |t|..] && AllSpace(s[..|s| - |t|])
    requires |r| <= |t| && r == t[..|r|] && AllSpace(t[|r|..])
    requires t == [] || !IsSpace(t[0])
    ensures r == [] || !IsSpace(r[0])
    ensures exists i, j :: 0 <= i <= j <= |s| && r == s[i..j] && AllSpace(s[..i]) && AllSpace(s[j..])
  {
    var i := |s| - |t|;
    var j := i + |r|;
    assert r == s[i..j];
    assert AllSpace(s[j..]) by {
      forall k | 0 <= k < |s| - j ensures IsSpace(s[j..][k]) {
        assert s[j..][k] == t[|r|..][k];
      }
    }
    if r != [] {
      assert r[0] == t[0];
    }
  }

  /** A piece is blank after trimming exactly when all of it is white space. */
  lemma {:induction false} TrimBlank(s: string)
    ensures Trim(s) == "" <==> AllSpace(s)
  {
    var t := TrimStart(s);
    TrimStartSpec(s);
    TrimEndSpec(t);
    if t != [] {
      assert t[0] == s[|s| - |t|];
    }
    if Trim(s) == "" {
      assert AllSpace(t[0..]);
      assert s == s[..|s| - |t|] + t;
    }
  }
}
