/** The `java.lang.String` operations the analyser relies on, over `seq<char>`.
    Every operation is total and follows the JDK's documented behaviour for the
    inputs it receives here. */
module JavaText {

  /** `prefix` is an initial segment of `s` (`s.startsWith(prefix)`). */
  predicate StartsWith(s: string, prefix: string) {
    |prefix| <= |s| && s[..|prefix|] == prefix
  }

  /** `s.endsWith(suffix)`. */
  predicate EndsWith(s: string, suffix: string) {
    |suffix| <= |s| && s[|s| - |suffix|..] == suffix
  }

  /** `s.contains(sub)`: `sub` occurs at some position of `s`. */
  predicate Contains(s: string, sub: string)
    decreases |s|
  {
    StartsWith(s, sub) || (|s| > 0 && Contains(s[1..], sub))
  }

  /** `sub` occurs in `s` starting at offset `i`. */
  predicate OccursAt(s: string, sub: string, i: int) {
    0 <= i <= |s| - |sub| && s[i..i + |sub|] == sub
  }

  /** `Contains` holds exactly when `sub` sits at some offset of `s`. */
  lemma {:induction false} ContainsAt(s: string, sub: string)
    ensures Contains(s, sub) <==> exists i :: OccursAt(s, sub, i)
    decreases |s|
  {
    if StartsWith(s, sub) {
      assert OccursAt(s, sub, 0);
    } else if |s| > 0 {
      ContainsAt(s[1..], sub);
      if Contains(s[1..], sub) {
        var i :| OccursAt(s[1..], sub, i);
        assert s[1..][i..i + |sub|] == s[i + 1..i + 1 + |sub|];
        assert OccursAt(s, sub, i + 1);
      }
      if exists i :: OccursAt(s, sub, i) {
        var i :| OccursAt(s, sub, i);
        assert i != 0;
        assert s[1..][i - 1..i - 1 + |sub|] == s[i..i + |sub|];
        assert OccursAt(s[1..], sub, i - 1);
      }
    } else {
      assert forall i :: !OccursAt(s, sub, i);
    }
  }

  /** `s.lastIndexOf(c)`: the largest index holding `c`, or -1. */
  function LastIndexOf(s: string, c: char): (r: int)
    ensures -1 <= r < |s|
    ensures r == -1 <==> c !in s
    ensures 0 <= r ==> s[r] == c && c !in s[r + 1..]
    decreases |s|
  {
    if |s| == 0 then -1
    else if s[|s| - 1] == c then |s| - 1
    else
      var r := LastIndexOf(s[..|s| - 1], c);
      assert s == s[..|s| - 1] + [s[|s| - 1]];
      r
  }

  /** Characters `String.trim` removes: every code point up to U+0020. */
  predicate IsTrimmed(c: char) {
    c <= ' '
  }

  function TrimStart(s: string): string
    decreases |s|
  {
    if |s| > 0 && IsTrimmed(s[0]) then TrimStart(s[1..]) else s
  }

  function TrimEnd(s: string): string
    decreases |s|
  {
    if |s| > 0 && IsTrimmed(s[|s| - 1]) then TrimEnd(s[..|s| - 1]) else s
  }

  /** `s.trim()`. */
  function Trim(s: string): string {
    TrimEnd(TrimStart(s))
  }

  /** The result of `Trim` is the part of `s` between its leading and trailing
      blanks: a slice of `s` that neither starts nor ends with a blank. */
  lemma {:induction false} TrimIsCore(s: string)
    ensures exists i, j :: 0 <= i <= j <= |s| && Trim(s) == s[i..j]
    ensures |Trim(s)| > 0 ==> !IsTrimmed(Trim(s)[0]) && !IsTrimmed(Trim(s)[|Trim(s)| - 1])
  {
    var i := TrimStartIsSuffix(s);
    var j := TrimEndIsPrefix(s[i..]);
    assert Trim(s) == s[i..i + j];
  }

  lemma {:induction false} TrimStartIsSuffix(s: string) returns (i: nat)
    ensures i <= |s| && TrimStart(s) == s[i..]
    ensures |TrimStart(s)| > 0 ==> !IsTrimmed(TrimStart(s)[0])
    decreases |s|
  {
    if |s| > 0 && IsTrimmed(s[0]) {
      var k := TrimStartIsSuffix(s[1..]);
      i := k + 1;
    } else {
      i := 0;
    }
  }

  lemma {:induction false} TrimEndIsPrefix(s: string) returns (j: nat)
    ensures j <= |s| && TrimEnd(s) == s[..j]
    ensures |TrimEnd(s)| > 0 ==> !IsTrimmed(TrimEnd(s)[|TrimEnd(s)| - 1])
    ensures |s| > 0 && !IsTrimmed(s[0]) ==> j > 0
    decreases |s|
  {
    if |s| > 0 && IsTrimmed(s[|s| - 1]) {
      j := TrimEndIsPrefix(s[..|s| - 1]);
    } else {
      j := |s|;
    }
  }

  /** A text already without leading and trailing blanks is left alone. */
  lemma TrimUnblanked(s: string)
    requires |s| > 0 && !IsTrimmed(s[0]) && !IsTrimmed(s[|s| - 1])
    ensures Trim(s) == s
  {
  }

  /** Trailing blanks go, an unblanked core stays. */
  lemma {:induction false} TrimDropsTrailingBlanks(s: string, blanks: string)
    requires |s| > 0 && !IsTrimmed(s[0]) && !IsTrimmed(s[|s| - 1])
    requires forall k :: 0 <= k < |blanks| ==> IsTrimmed(blanks[k])
    ensures Trim(s + blanks) == s
    decreases |blanks|
  {
    assert TrimStart(s + blanks) == s + blanks;
    if |blanks| > 0 {
      var shorter := blanks[..|blanks| - 1];
      assert (s + blanks)[..|s + blanks| - 1] == s + shorter;
      TrimDropsTrailingBlanks(s, shorter);
      assert TrimStart(s + shorter) == s + shorter;
    } else {
      assert s + blanks == s;
    }
  }

  /** The KELVIN SIGN, which Java lower-cases to the ASCII letter `k`. */
  const KelvinSign: char := '\U{212A}'

  /** `Character.toLowerCase` for the ASCII letters and the Kelvin sign, the
      one character outside ASCII that Java folds to a letter of `kwh`. */
  function LowerChar(c: char): (r: char)
    ensures 'A' <= c <= 'Z' ==> 'a' <= r <= 'z' && r as int == c as int + 32
    ensures c == KelvinSign ==> r == 'k'
    ensures !('A' <= c <= 'Z') && c != KelvinSign ==> r == c
  {
    if 'A' <= c <= 'Z' then (c as int + 32) as char
    else if c == KelvinSign then 'k'
    else c
  }

  /** `s.toLowerCase()`, for the letters `LowerChar` folds. */
  function ToLowerCase(s: string): (r: string)
    ensures |r| == |s|
    ensures forall i :: 0 <= i < |s| ==> r[i] == LowerChar(s[i])
  {
    seq(|s|, i requires 0 <= i < |s| => LowerChar(s[i]))
  }

  /** Lower-casing works character by character, so it distributes over `+`. */
  lemma ToLowerCaseConcat(a: string, b: string)
    ensures ToLowerCase(a + b) == ToLowerCase(a) + ToLowerCase(b)
  {
    assert forall i :: 0 <= i < |a + b| ==> ToLowerCase(a + b)[i] == (ToLowerCase(a) + ToLowerCase(b))[i];
  }

  /** `s.replace(target, rep)`: every non-overlapping occurrence of `target`,
      scanning from the left, replaced by `rep`. */
  function Replace(s: string, target: string, rep: string): string
    requires |target| > 0
    decreases |s|
  {
    if |s| < |target| then s
    else if s[..|target|] == target then rep + Replace(s[|target|..], target, rep)
    else [s[0]] + Replace(s[1..], target, rep)
  }

  /** A prefix that cannot start an occurrence of `target` passes through
      `Replace` untouched. */
  lemma {:induction false} ReplaceSkipsPrefix(a: string, b: string, target: string, rep: string)
    requires |target| > 0 && target[0] !in a
    ensures Replace(a + b, target, rep) == a + Replace(b, target, rep)
    decreases |a|
  {
    if |a| > 0 {
      var s := a + b;
      assert s[0] == a[0] != target[0];
      if |s| < |target| {
        // too short for any occurrence: both sides are the text itself
        ReplaceShort(b, target, rep);
      } else {
        assert s[..|target|] != target;
        assert s[1..] == a[1..] + b;
        ReplaceSkipsPrefix(a[1..], b, target, rep);
      }
    } else {
      assert a + b == b;
    }
  }

  lemma ReplaceShort(s: string, target: string, rep: string)
    requires |target| > 0 && |s| < |target|
    ensures Replace(s, target, rep) == s
  {
  }

  /** A text in which `target`'s first character never occurs is unchanged. */
  lemma ReplaceAbsent(s: string, target: string, rep: string)
    requires |target| > 0 && target[0] !in s
    ensures Replace(s, target, rep) == s
  {
    ReplaceSkipsPrefix(s, [], target, rep);
    assert s + [] == s;
  }
}
