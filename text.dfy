/** The JavaScript string operations the core is built from: `trim`, `split` on a
    one-character separator, `join`, `includes`, the UTF-16 `length`, and
    `replace` with a global regular expression whose alternatives are literal
    strings. */
module Text {

  import opened Wrappers

  // ---------------------------------------------------------------------------
  // trim
  // ---------------------------------------------------------------------------

  /** The code points `String.prototype.trim` removes: WhiteSpace and LineTerminator. */
  predicate IsSpace(c: char) {
    || c == ' ' || c == '\t' || c == '\n' || c == '\r' || c == '\U{B}' || c == '\U{C}'
    || c == '\U{A0}' || c == '\U{1680}' || ('\U{2000}' <= c <= '\U{200A}')
    || c == '\U{2028}' || c == '\U{2029}' || c == '\U{202F}' || c == '\U{205F}'
    || c == '\U{3000}' || c == '\U{FEFF}'
  }

  /** The characters that `.` does not match in a regular expression. */
  predicate IsLineTerminator(c: char) {
    c == '\n' || c == '\r' || c == '\U{2028}' || c == '\U{2029}'
  }

  predicate IsTrimmed(s: string) {
    |s| == 0 || (!IsSpace(s[0]) && !IsSpace(s[|s| - 1]))
  }

  function TrimStart(s: string): (r: string)
    ensures |r| <= |s|
    ensures r == s[|s| - |r|..]
    ensures |r| == 0 || !IsSpace(r[0])
    ensures forall i :: 0 <= i < |s| - |r| ==> IsSpace(s[i])
    decreases |s|
  {
    if |s| > 0 && IsSpace(s[0]) then TrimStart(s[1..]) else s
  }

  function TrimEnd(s: string): (r: string)
    ensures |r| <= |s|
    ensures r == s[..|r|]
    ensures |r| == 0 || !IsSpace(r[|r| - 1])
    ensures forall i :: |r| <= i < |s| ==> IsSpace(s[i])
    decreases |s|
  {
    if |s| > 0 && IsSpace(s[|s| - 1]) then TrimEnd(s[..|s| - 1]) else s
  }

  /** Where the trimmed text starts inside the original. */
  function TrimOffset(s: string): nat {
    |s| - |TrimStart(s)|
  }

  /** `s.trim()`: the trimmed slice of `s` left after dropping white space at
      both ends. */
  function Trim(s: string): (r: string)
    ensures TrimOffset(s) + |r| <= |s|
    ensures r == s[TrimOffset(s)..TrimOffset(s) + |r|]
    ensures IsTrimmed(r)
  {
    var t := TrimStart(s);
    var r := TrimEnd(t);
    assert t == s[TrimOffset(s)..];
    assert r == t[..|r|];
    r
  }

  /** White space at the end of a suffix is white space at the end of the whole. */
  lemma SpaceTail(s: string, k: nat, t: string, n: nat)
    requires k <= |s| && t == s[k..] && n <= |t|
    requires forall j :: n <= j < |t| ==> IsSpace(t[j])
    ensures forall i :: k + n <= i < |s| ==> IsSpace(s[i])
  {
    forall i | k + n <= i < |s| ensures IsSpace(s[i]) {
      assert s[i] == t[i - k];
    }
  }

  /** Everything `trim` drops is white space. */
  lemma TrimDropsSpace(s: string)
    ensures forall i :: 0 <= i < TrimOffset(s) ==> IsSpace(s[i])
    ensures forall i :: TrimOffset(s) + |Trim(s)| <= i < |s| ==> IsSpace(s[i])
  {
    var t := TrimStart(s);
    var r := TrimEnd(t);
    assert Trim(s) == r;
    SpaceTail(s, TrimOffset(s), t, |r|);
  }

  lemma TrimOfTrimmed(s: string)
    requires IsTrimmed(s)
    ensures Trim(s) == s
  {
  }

  /** Trimming `" " + s` gives back a trimmed `s`: what makes re-reading a joined
      tag string give back its tags. */
  lemma TrimAfterSpace(s: string)
    requires IsTrimmed(s)
    ensures Trim(" " + s) == s
  {
    assert (" " + s)[1..] == s;
    assert TrimStart(" " + s) == TrimStart(s) == s;
  }

  // ---------------------------------------------------------------------------
  // split and join
  // ---------------------------------------------------------------------------

  /** `s.split(sep)` for a one-character separator: never empty, and no part
      holds the separator. */
  function Split(s: string, sep: char): (parts: seq<string>)
    ensures |parts| >= 1
    ensures forall i :: 0 <= i < |parts| ==> sep !in parts[i]
    decreases |s|
  {
    if |s| == 0 then [""]
    else
      var rest := Split(s[1..], sep);
      if s[0] == sep then [""] + rest
      else [[s[0]] + rest[0]] + rest[1..]
  }

  /** `parts.join(sep)`: empty for no parts. */
  function Join(parts: seq<string>, sep: string): (r: string)
    ensures |parts| == 0 ==> r == ""
    decreases |parts|
  {
    if |parts| == 0 then ""
    else if |parts| == 1 then parts[0]
    else parts[0] + sep + Join(parts[1..], sep)
  }

  /** A join begins with its first part, followed by the separator when more
      parts follow. */
  lemma JoinFirst(parts: seq<string>, sep: string)
    requires |parts| >= 1
    ensures IsPrefix(parts[0], Join(parts, sep))
    ensures |parts| >= 2 ==> IsPrefix(parts[0] + sep, Join(parts, sep))
  {
    var r := Join(parts, sep);
    if |parts| >= 2 {
      assert r == parts[0] + sep + Join(parts[1..], sep);
      assert r[..|parts[0]|] == parts[0];
      assert r[..|parts[0] + sep|] == parts[0] + sep;
    }
  }

  /** Joining the parts of a split with the separator gives back the string. */
  lemma {:induction false} SplitJoin(s: string, sep: char)
    ensures Join(Split(s, sep), [sep]) == s
    decreases |s|
  {
    if |s| > 0 {
      var rest := Split(s[1..], sep);
      SplitJoin(s[1..], sep);
      if s[0] == sep {
        assert ([""] + rest)[1..] == rest;
      } else if |rest| > 1 {
        var parts := [[s[0]] + rest[0]] + rest[1..];
        assert parts[1..] == rest[1..];
        assert Join(rest, [sep]) == rest[0] + [sep] + Join(rest[1..], [sep]);
      }
    }
  }

  lemma {:induction false} SplitNoSep(s: string, sep: char)
    requires sep !in s
    ensures Split(s, sep) == [s]
    decreases |s|
  {
    if |s| > 0 {
      SplitNoSep(s[1..], sep);
      assert [s[0]] + s[1..] == s;
    }
  }

  lemma {:induction false} SplitAfter(a: string, b: string, sep: char)
    requires sep !in a
    ensures Split(a + [sep] + b, sep) == [a] + Split(b, sep)
    decreases |a|
  {
    var s := a + [sep] + b;
    if |a| == 0 {
      assert s[1..] == b;
    } else {
      assert s[1..] == a[1..] + [sep] + b;
      SplitAfter(a[1..], b, sep);
      assert [a[0]] + a[1..] == a;
    }
  }

  /** Splitting the join of separator-free parts gives back the parts. */
  lemma {:induction false} JoinSplit(parts: seq<string>, sep: char)
    requires |parts| >= 1
    requires forall i :: 0 <= i < |parts| ==> sep !in parts[i]
    ensures Split(Join(parts, [sep]), sep) == parts
    decreases |parts|
  {
    if |parts| == 1 {
      SplitNoSep(parts[0], sep);
    } else {
      JoinSplit(parts[1..], sep);
      SplitAfter(parts[0], Join(parts[1..], [sep]), sep);
      assert [parts[0]] + parts[1..] == parts;
    }
  }

  lemma JoinAppend(parts: seq<string>, last: string, sep: string)
    requires |parts| >= 1
    ensures Join(parts + [last], sep) == Join(parts, sep) + sep + last
    decreases |parts|
  {
    if |parts| > 1 {
      assert (parts + [last])[1..] == parts[1..] + [last];
      JoinAppend(parts[1..], last, sep);
    }
  }

  // ---------------------------------------------------------------------------
  // searching
  // ---------------------------------------------------------------------------

  predicate IsPrefix(p: string, s: string) {
    |p| <= |s| && s[..|p|] == p
  }

  /** `s.includes(p)`. */
  predicate Contains(s: string, p: string)
    ensures Contains(s, p) ==> |p| <= |s|
    ensures IsPrefix(p, s) ==> Contains(s, p)
    decreases |s|
  {
    |p| <= |s| && (s[..|p|] == p || Contains(s[1..], p))
  }

  /** `p` occurs in `s` at position `k`. */
  predicate OccursAt(s: string, p: string, k: nat) {
    k + |p| <= |s| && s[k..k + |p|] == p
  }

  /** `includes` holds exactly when `p` occurs at some position of `s`. */
  lemma {:induction false} ContainsAt(s: string, p: string)
    ensures Contains(s, p) <==> exists k: nat :: OccursAt(s, p, k)
    decreases |s|
  {
    if |p| <= |s| {
      assert OccursAt(s, p, 0) <==> s[..|p|] == p;
      if s[..|p|] != p {
        ContainsAt(s[1..], p);
        if exists k: nat :: OccursAt(s, p, k) {
          var k: nat :| OccursAt(s, p, k);
          assert k != 0;
          assert s[1..][k - 1..k - 1 + |p|] == s[k..k + |p|];
          assert OccursAt(s[1..], p, k - 1);
        }
        if Contains(s[1..], p) {
          var j: nat :| OccursAt(s[1..], p, j);
          assert s[1..][j..j + |p|] == s[j + 1..j + 1 + |p|];
          assert OccursAt(s, p, j + 1);
        }
      }
    }
  }

  lemma {:induction false} ContainsSuffix(x: string, p: string)
    ensures Contains(x + p, p)
    decreases |x|
  {
    if |x| > 0 {
      assert (x + p)[1..] == x[1..] + p;
      ContainsSuffix(x[1..], p);
    } else {
      assert (x + p)[..|p|] == p;
    }
  }

  lemma {:induction false} ContainsInPrefix(s: string, n: nat, p: string)
    requires n <= |s|
    requires Contains(s[..n], p)
    ensures Contains(s, p)
    decreases n
  {
    if s[..n][..|p|] != p {
      assert s[..n][1..] == s[1..][..n - 1];
      ContainsInPrefix(s[1..], n - 1, p);
    }
  }

  lemma {:induction false} ContainsInSuffix(s: string, k: nat, p: string)
    requires k <= |s|
    requires Contains(s[k..], p)
    ensures Contains(s, p)
    decreases k
  {
    if k > 0 {
      assert s[1..][k - 1..] == s[k..];
      ContainsInSuffix(s[1..], k - 1, p);
    }
  }

  /** What occurs in the trimmed text occurs in the text. */
  lemma ContainsTrimmed(s: string, p: string)
    requires Contains(Trim(s), p)
    ensures Contains(s, p)
  {
    var k := TrimOffset(s);
    var t := s[k..];
    assert Trim(s) == t[..|Trim(s)|];
    ContainsInPrefix(t, |Trim(s)|, p);
    ContainsInSuffix(s, k, p);
  }

  /** `s.indexOf(c)`, as an option. */
  function IndexOf(s: string, c: char): (r: Option<nat>)
    ensures r.None? <==> c !in s
    ensures r.Some? ==> r.value < |s| && s[r.value] == c && c !in s[..r.value]
    decreases |s|
  {
    if |s| == 0 then None
    else if s[0] == c then Some(0)
    else match IndexOf(s[1..], c)
      case None => None
      case Some(i) =>
        assert s[..i + 1] == [s[0]] + s[1..][..i];
        Some(i + 1)
  }

  // ---------------------------------------------------------------------------
  // length
  // ---------------------------------------------------------------------------

  /** JavaScript's `length`: UTF-16 code units, two for a code point outside the
      Basic Multilingual Plane. */
  function Utf16Length(s: string): (n: nat)
    ensures |s| <= n <= 2 * |s|
    ensures n == 0 <==> s == []
    decreases |s|
  {
    if |s| == 0 then 0
    else (if s[0] as int >= 0x1_0000 then 2 else 1) + Utf16Length(s[1..])
  }

  // ---------------------------------------------------------------------------
  // global replacement by the empty string
  // ---------------------------------------------------------------------------

  /** The canonical form the `i` flag compares without the `u` flag (upper case).
      Exact for the patterns of this model, whose letters are ASCII or Latin-1. */
  function Canon(c: char): char {
    if 'a' <= c <= 'z' then (c as int - 32) as char
    else if '\U{E0}' <= c <= '\U{FE}' && c != '\U{F7}' then (c as int - 32) as char
    else c
  }

  predicate SameChar(c: char, p: char, ci: bool) {
    if ci then Canon(c) == Canon(p) else c == p
  }

  /** The literal pattern `p` matches at the start of `s`. */
  predicate MatchesAt(s: string, p: string, ci: bool) {
    |p| <= |s| && forall i :: 0 <= i < |p| ==> SameChar(s[i], p[i], ci)
  }

  /** Length of the match of the alternation `p1|p2|…` at the start of `s`:
      the first alternative that matches wins; 0 when none does. */
  function MatchLen(s: string, pats: seq<string>, ci: bool): (n: nat)
    ensures n <= |s|
    decreases |pats|
  {
    if |pats| == 0 then 0
    else if |pats[0]| > 0 && MatchesAt(s, pats[0], ci) then |pats[0]|
    else MatchLen(s, pats[1..], ci)
  }

  /** `s.replace(/p1|p2|…/g, "")` (with the `i` flag when `ci`): scanning left to
      right, every match is dropped and every other character kept. */
  function Strip(s: string, pats: seq<string>, ci: bool): (r: string)
    ensures |r| <= |s|
    ensures |pats| == 0 ==> r == s
    decreases |s|
  {
    if |s| == 0 then ""
    else
      var n := MatchLen(s, pats, ci);
      if n > 0 then Strip(s[n..], pats, ci) else [s[0]] + Strip(s[1..], pats, ci)
  }

  /** No alternative matches at the start of `s` exactly when every non-empty
      alternative fails to match there. */
  lemma {:induction false} MatchLenZero(s: string, pats: seq<string>, ci: bool)
    ensures MatchLen(s, pats, ci) == 0 <==>
      forall i :: 0 <= i < |pats| && |pats[i]| > 0 ==> !MatchesAt(s, pats[i], ci)
    decreases |pats|
  {
    if |pats| > 0 {
      MatchLenZero(s, pats[1..], ci);
      assert forall i :: 1 <= i < |pats| ==> pats[i] == pats[1..][i - 1];
    }
  }

  /** When alternative `j` matches and no earlier one does, the match is
      alternative `j`. */
  lemma {:induction false} MatchLenFirst(s: string, pats: seq<string>, ci: bool, j: nat)
    requires j < |pats| && |pats[j]| > 0 && MatchesAt(s, pats[j], ci)
    requires forall i :: 0 <= i < j && |pats[i]| > 0 ==> !MatchesAt(s, pats[i], ci)
    ensures MatchLen(s, pats, ci) == |pats[j]|
    decreases j
  {
    if j > 0 {
      forall i | 0 <= i < j - 1 && |pats[1..][i]| > 0 ensures !MatchesAt(s, pats[1..][i], ci) {
        assert pats[1..][i] == pats[i + 1];
      }
      MatchLenFirst(s, pats[1..], ci, j - 1);
    }
  }

  /** Text in front of which no match starts is kept as it is: the replacement
      only removes what matches. */
  lemma {:induction false} StripKeepsPrefix(a: string, b: string, pats: seq<string>, ci: bool)
    requires forall k :: 0 <= k < |a| ==> MatchLen((a + b)[k..], pats, ci) == 0
    ensures Strip(a + b, pats, ci) == a + Strip(b, pats, ci)
    decreases |a|
  {
    if |a| == 0 {
      assert a + b == b;
    } else {
      var s := a + b;
      assert s[0..] == s;
      assert s[1..] == a[1..] + b;
      forall k | 0 <= k < |a[1..]| ensures MatchLen((a[1..] + b)[k..], pats, ci) == 0 {
        assert (a[1..] + b)[k..] == s[k + 1..];
      }
      StripKeepsPrefix(a[1..], b, pats, ci);
      assert [a[0]] + a[1..] == a;
    }
  }

  /** A text where no match starts anywhere is left unchanged. */
  lemma StripKeeps(s: string, pats: seq<string>, ci: bool)
    requires forall k :: 0 <= k < |s| ==> MatchLen(s[k..], pats, ci) == 0
    ensures Strip(s, pats, ci) == s
  {
    assert s + "" == s;
    StripKeepsPrefix(s, "", pats, ci);
  }

  /** Only a backtick compares equal to a backtick, in either case mode. */
  lemma SameAsBacktick(c: char, ci: bool)
    requires SameChar(c, '`', ci)
    ensures c == '`'
  {
  }

  /** Text without backticks is kept in front of anything when every
      alternative begins with a backtick. */
  lemma BacktickFreeKept(a: string, b: string, pats: seq<string>, ci: bool)
    requires '`' !in a
    requires forall i :: 0 <= i < |pats| ==> |pats[i]| > 0 && pats[i][0] == '`'
    ensures Strip(a + b, pats, ci) == a + Strip(b, pats, ci)
  {
    forall k | 0 <= k < |a| ensures MatchLen((a + b)[k..], pats, ci) == 0 {
      var x := (a + b)[k..];
      assert x[0] == a[k];
      forall i | 0 <= i < |pats| && |pats[i]| > 0 ensures !MatchesAt(x, pats[i], ci) {
        if MatchesAt(x, pats[i], ci) {
          assert SameChar(x[0], pats[i][0], ci);
          SameAsBacktick(x[0], ci);
        }
      }
      MatchLenZero(x, pats, ci);
    }
    StripKeepsPrefix(a, b, pats, ci);
  }

  /** A match at the front is removed whole. */
  lemma StripDropsMatch(p: string, b: string, pats: seq<string>, ci: bool)
    requires |p| > 0 && MatchLen(p + b, pats, ci) == |p|
    ensures Strip(p + b, pats, ci) == Strip(b, pats, ci)
  {
    assert (p + b)[|p|..] == b;
  }

  /** The code fence of Markdown. */
  const Fence: string := "```"

  lemma MatchesFence(t: string)
    ensures MatchesAt(t, Fence, false) <==> IsPrefix(Fence, t)
  {
    if |t| >= 3 {
      assert MatchesAt(t, Fence, false) <==> t[0] == '`' && t[1] == '`' && t[2] == '`';
      assert t[..3] == Fence <==> t[0] == '`' && t[1] == '`' && t[2] == '`';
    }
  }

  /** The alternations `/```/` and `/```json|```/` match exactly where a fence starts. */
  lemma FenceMatch(t: string, pats: seq<string>)
    requires pats == [Fence] || pats == ["```json", Fence]
    ensures MatchLen(t, pats, false) > 0 <==> IsPrefix(Fence, t)
  {
    MatchesFence(t);
    if pats == [Fence] {
      assert MatchLen(t, pats, false) == if MatchesAt(t, Fence, false) then 3 else MatchLen(t, [], false);
    } else {
      var json := "```json";
      assert MatchesAt(t, json, false) ==> MatchesAt(t, Fence, false);
      assert pats[1..] == [Fence];
      assert MatchLen(t, [Fence], false) == if MatchesAt(t, Fence, false) then 3 else MatchLen(t, [], false);
    }
  }

  /** Putting a character in front of a fence-free text makes a fence only when
      it is a backtick and the text starts with two. */
  lemma ConsFenceFree(c: char, rest: string)
    requires !Contains(rest, Fence)
    requires c == '`' ==> !IsPrefix("``", rest)
    ensures !Contains([c] + rest, Fence)
  {
    var r := [c] + rest;
    assert r[1..] == rest;
    assert |r| >= 3 ==> r[..3] == [c, rest[0], rest[1]];
    assert |rest| >= 2 ==> rest[..2] == [rest[0], rest[1]];
  }

  lemma ConsPrefix(c: char, rest: string, s: string)
    requires |s| > 0 && s[0] == c
    requires !IsPrefix("`", s[1..]) ==> !IsPrefix("`", rest)
    requires !IsPrefix("``", s[1..]) ==> !IsPrefix("``", rest)
    ensures !IsPrefix("`", s) ==> !IsPrefix("`", [c] + rest)
    ensures !IsPrefix("``", s) ==> !IsPrefix("``", [c] + rest)
  {
    var r := [c] + rest;
    assert |r| >= 1 ==> r[..1] == [c];
    assert |r| >= 2 ==> r[..2] == [c, rest[0]];
    assert |rest| >= 1 ==> rest[..1] == [rest[0]];
    assert s[..1] == [c];
    assert |s| >= 2 ==> s[..2] == [c, s[1]] && s[1..][..1] == [s[1]];
  }

  /** Keeping a character that starts no fence in front of a fence-free rest
      keeps the text fence-free, and starts it with no more backticks than the
      original. */
  lemma KeepStep(s: string, rest: string)
    requires |s| > 0 && !IsPrefix(Fence, s)
    requires !Contains(rest, Fence)
    requires !IsPrefix("`", s[1..]) ==> !IsPrefix("`", rest)
    requires !IsPrefix("``", s[1..]) ==> !IsPrefix("``", rest)
    ensures !Contains([s[0]] + rest, Fence)
    ensures !IsPrefix("`", s) ==> !IsPrefix("`", [s[0]] + rest)
    ensures !IsPrefix("``", s) ==> !IsPrefix("``", [s[0]] + rest)
  {
    assert |s| >= 3 ==> s[..3] == [s[0], s[1], s[2]] && s[1..][..2] == [s[1], s[2]];
    ConsFenceFree(s[0], rest);
    ConsPrefix(s[0], rest, s);
  }

  /** No fence is left after stripping `s` (and `s` starts with fewer than one
      or two backticks, the result does too). */
  predicate StripsClean(s: string, pats: seq<string>) {
    var r := Strip(s, pats, false);
    && !Contains(r, Fence)
    && (!IsPrefix("`", s) ==> !IsPrefix("`", r))
    && (!IsPrefix("``", s) ==> !IsPrefix("``", r))
  }

  /** A fence at the front is dropped whole. */
  lemma CutStep(s: string, pats: seq<string>)
    requires pats == [Fence] || pats == ["```json", Fence]
    requires |s| > 0 && MatchLen(s, pats, false) > 0
    requires StripsClean(s[MatchLen(s, pats, false)..], pats)
    ensures StripsClean(s, pats)
  {
    var n := MatchLen(s, pats, false);
    FenceMatch(s, pats);
    assert Strip(s, pats, false) == Strip(s[n..], pats, false);
    assert s[..1] == "`" && s[..2] == "``";
  }

  /** A character that starts no fence is kept. */
  lemma KeepCase(s: string, pats: seq<string>)
    requires pats == [Fence] || pats == ["```json", Fence]
    requires |s| > 0 && MatchLen(s, pats, false) == 0
    requires StripsClean(s[1..], pats)
    ensures StripsClean(s, pats)
  {
    FenceMatch(s, pats);
    var rest := Strip(s[1..], pats, false);
    assert Strip(s, pats, false) == [s[0]] + rest;
    KeepStep(s, rest);
  }

  /** Removing every fence, case-sensitively, leaves no fence: a backtick kept
      next to a removed fence would have started a fence itself. */
  lemma {:induction false} StripFenceFree(s: string, pats: seq<string>)
    requires pats == [Fence] || pats == ["```json", Fence]
    ensures !Contains(Strip(s, pats, false), Fence)
    ensures !IsPrefix("`", s) ==> !IsPrefix("`", Strip(s, pats, false))
    ensures !IsPrefix("``", s) ==> !IsPrefix("``", Strip(s, pats, false))
    decreases |s|
  {
    if |s| == 0 {
      assert Strip(s, pats, false) == "";
    } else if MatchLen(s, pats, false) > 0 {
      StripFenceFree(s[MatchLen(s, pats, false)..], pats);
      CutStep(s, pats);
    } else {
      StripFenceFree(s[1..], pats);
      KeepCase(s, pats);
    }
  }
}
