/** String facts shared by the naming, credential and lock models. */
module Text {

  datatype Option<+T> = None | Some(value: T)

  datatype Result<+T, +E> = Ok(value: T) | Err(error: E)

  predicate EndsWith(s: string, ending: string) {
    |ending| <= |s| && s[|s| - |ending|..] == ending
  }

  /** Comparing one position counted from the end rules a suffix out. */
  lemma NotSuffix(s: string, ending: string, back: nat)
    requires 1 <= back <= |ending|
    requires back <= |s| ==> s[|s| - back] != ending[|ending| - back]
    ensures !EndsWith(s, ending)
  {
    if |ending| <= |s| {
      assert s[|s| - |ending|..][|ending| - back] == s[|s| - back];
    }
  }

  lemma ConcatEndsWith(a: string, b: string)
    ensures EndsWith(a + b, b)
  {
    assert (a + b)[|a|..] == b;
  }

  /** Two suffixes of one text: the shorter closes the longer. */
  lemma NestedSuffixes(s: string, a: string, b: string)
    requires EndsWith(s, a) && EndsWith(s, b) && |a| <= |b|
    ensures EndsWith(b, a)
  {
    assert s[|s| - |b|..][|b| - |a|..] == s[|s| - |a|..];
  }

  /** Endings that do not close one another never end the same text. */
  lemma DifferentEndings(a: string, x: string, b: string, y: string)
    requires !EndsWith(x, y) && !EndsWith(y, x)
    ensures a + x != b + y
  {
    ConcatEndsWith(a, x);
    ConcatEndsWith(b, y);
    if a + x == b + y {
      if |x| <= |y| {
        NestedSuffixes(b + y, x, y);
      } else {
        NestedSuffixes(a + x, y, x);
      }
    }
  }

  lemma SameEnding(a: string, b: string, x: string)
    requires a + x == b + x
    ensures a == b
  {
    assert (a + x)[..|a|] == a && (b + x)[..|b|] == b;
  }

  // ---- case folding (ASCII letters) ----

  function LowerChar(c: char): char {
    if 'A' <= c <= 'Z' then c - 'A' + 'a' else c
  }

  function Lower(s: string): (r: string)
    ensures |r| == |s|
  {
    if s == "" then "" else [LowerChar(s[0])] + Lower(s[1..])
  }

  lemma {:induction false} LowerAt(s: string)
    ensures forall i :: 0 <= i < |s| ==> Lower(s)[i] == LowerChar(s[i])
  {
    if s != "" {
      LowerAt(s[1..]);
      forall i | 0 <= i < |s| ensures Lower(s)[i] == LowerChar(s[i]) {
        if i > 0 {
          assert s[1..][i - 1] == s[i];
        }
      }
    }
  }

  // ---- white space as str.strip() sees it ----

  predicate IsSpace(c: char) {
    var n := c as int;
    || 9 <= n <= 13 || 28 <= n <= 32 || n == 0x85 || n == 0xA0 || n == 0x1680
    || 0x2000 <= n <= 0x200A || n == 0x2028 || n == 0x2029 || n == 0x202F || n == 0x205F || n == 0x3000
  }

  /** The first position from `i` on that is not white space. */
  function Start(s: string, i: nat): (r: nat)
    requires i <= |s|
    ensures i <= r <= |s| && (r < |s| ==> !IsSpace(s[r]))
    decreases |s| - i
  {
    if i == |s| || !IsSpace(s[i]) then i else Start(s, i + 1)
  }

  /** The end of the text between `i` and `n` without its closing white space. */
  function End(s: string, i: nat, n: nat): (r: nat)
    requires i <= n <= |s|
    ensures i <= r <= n && (r > i ==> !IsSpace(s[r - 1]))
  {
    if n == i || !IsSpace(s[n - 1]) then n else End(s, i, n - 1)
  }

  /** A text without white space at either end. */
  predicate Trimmed(s: string) {
    s == "" || (!IsSpace(s[0]) && !IsSpace(s[|s| - 1]))
  }

  function Strip(s: string): (r: string)
    ensures Trimmed(r)
    ensures Trimmed(s) ==> r == s
  {
    var i := Start(s, 0);
    s[i..End(s, i, |s|)]
  }

  lemma StripKeepsStart(s: string)
    requires s != "" && !IsSpace(s[0])
    ensures Strip(s) != "" && Strip(s)[0] == s[0]
  {
    EndIsBeyond(s, 0, |s|);
  }

  lemma {:induction false} EndIsBeyond(s: string, i: nat, n: nat)
    requires i < n <= |s| && !IsSpace(s[i])
    ensures End(s, i, n) > i
  {
    if IsSpace(s[n - 1]) {
      EndIsBeyond(s, i, n - 1);
    }
  }

  lemma StripKeepsEnd(s: string)
    requires s != "" && !IsSpace(s[|s| - 1])
    ensures Strip(s) != ""
  {
    StartIsWithin(s, 0);
    EndIsBeyond(s, Start(s, 0), |s|);
  }

  lemma {:induction false} StartIsWithin(s: string, i: nat)
    requires i < |s| && !IsSpace(s[|s| - 1])
    ensures Start(s, i) < |s|
    decreases |s| - i
  {
    if IsSpace(s[i]) {
      StartIsWithin(s, i + 1);
    }
  }

  lemma {:induction false} StartIs(s: string, i: nat, k: nat)
    requires i <= k <= |s| && (forall j :: i <= j < k ==> IsSpace(s[j])) && (k < |s| ==> !IsSpace(s[k]))
    ensures Start(s, i) == k
    decreases k - i
  {
    if i < k {
      StartIs(s, i + 1, k);
    }
  }

  lemma {:induction false} EndIs(s: string, i: nat, n: nat, k: nat)
    requires i < k <= n <= |s| && (forall j :: k <= j < n ==> IsSpace(s[j])) && !IsSpace(s[k - 1])
    ensures End(s, i, n) == k
  {
    if k < n {
      EndIs(s, i, n - 1, k);
    }
  }

  predicate AllSpace(s: string) {
    forall i :: 0 <= i < |s| ==> IsSpace(s[i])
  }

  /** Whatever white space stands around it, a text is what is left. */
  lemma StripsPadding(left: string, core: string, right: string)
    requires AllSpace(left) && AllSpace(right) && Trimmed(core) && core != ""
    ensures Strip(left + core + right) == core
  {
    var s := left + core + right;
    var k := |left| + |core|;
    assert s[|left|] == core[0] && s[k - 1] == core[|core| - 1];
    assert forall j :: k <= j < |s| ==> s[j] == right[j - k];
    StartIs(s, 0, |left|);
    EndIs(s, |left|, |s|, k);
  }

  /** Nothing is left exactly of white space alone. */
  lemma BlankExactly(s: string)
    ensures Blank(s) <==> AllSpace(s)
  {
    var i := Start(s, 0);
    if AllSpace(s) {
      StartIs(s, 0, |s|);
    } else if i < |s| {
      EndIsBeyond(s, i, |s|);
    } else {
      StartIsBefore(s, 0);
    }
  }

  lemma {:induction false} StartIsBefore(s: string, i: nat)
    requires i <= |s| && Start(s, i) == |s|
    ensures forall j :: i <= j < |s| ==> IsSpace(s[j])
    decreases |s| - i
  {
    if i < |s| {
      StartIsBefore(s, i + 1);
    }
  }

  predicate Blank(s: string) {
    Strip(s) == ""
  }
}
