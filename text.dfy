/** String helpers with the meaning Python gives the corresponding built-ins
    (str.strip, `in`, str.startswith, str.join). Strings are sequences of
    Unicode scalar values, as Python 3 `str` values are. */
module TextUtil {

  datatype Option<T> = None | Some(value: T)

  /** Python's str.isspace() on one character: exactly the characters that
      str.strip() with no argument removes. */
  predicate IsSpace(c: char) {
    || ('\t' <= c <= '\r')
    || ('\U{1C}' <= c <= '\U{1F}')
    || c == ' ' || c == '\U{85}' || c == '\U{A0}' || c == '\U{1680}'
    || ('\U{2000}' <= c <= '\U{200A}')
    || c == '\U{2028}' || c == '\U{2029}' || c == '\U{202F}' || c == '\U{205F}' || c == '\U{3000}'
  }

  /** str.lstrip() */
  function TrimLeft(s: string): string
    decreases |s|
  {
    if s != [] && IsSpace(s[0]) then TrimLeft(s[1..]) else s
  }

  /** str.lstrip() returns the longest suffix that does not start with whitespace. */
  lemma {:induction false} TrimLeftSuffix(s: string)
    ensures var r := TrimLeft(s);
      && |r| <= |s| && r == s[|s| - |r|..]
      && (forall i :: 0 <= i < |s| - |r| ==> IsSpace(s[i]))
      && (r == [] || !IsSpace(r[0]))
    decreases |s|
  {
    if s != [] && IsSpace(s[0]) {
      TrimLeftSuffix(s[1..]);
    }
  }

  /** str.rstrip() */
  function TrimRight(s: string): string
    decreases |s|
  {
    if s != [] && IsSpace(s[|s| - 1]) then TrimRight(s[..|s| - 1]) else s
  }

  /** str.rstrip() returns the longest prefix that does not end with whitespace. */
  lemma {:induction false} TrimRightPrefix(s: string)
    ensures var r := TrimRight(s);
      && |r| <= |s| && r == s[..|r|]
      && (forall i :: |r| <= i < |s| ==> IsSpace(s[i]))
      && (r == [] || !IsSpace(r[|r| - 1]))
    decreases |s|
  {
    if s != [] && IsSpace(s[|s| - 1]) {
      TrimRightPrefix(s[..|s| - 1]);
    }
  }

  /** str.strip() */
  function Strip(s: string): string {
    TrimRight(TrimLeft(s))
  }

  /** A string that neither starts nor ends with whitespace is its own strip. */
  lemma StripUntrimmed(s: string)
    requires s != [] && !IsSpace(s[0]) && !IsSpace(s[|s| - 1])
    ensures Strip(s) == s
  {
  }

  /** A leading whitespace character never survives str.strip(). */
  lemma StripLeadingSpace(c: char, s: string)
    requires IsSpace(c)
    ensures Strip([c] + s) == Strip(s)
  {
    assert ([c] + s)[1..] == s;
  }

  /** A trailing newline never changes what str.strip() returns. */
  lemma {:induction false} StripTrailingNewline(w: string)
    ensures Strip(w + "\n") == Strip(w)
    decreases |w|
  {
    if w == [] {
    } else if IsSpace(w[0]) {
      assert (w + "\n")[1..] == w[1..] + "\n";
      StripTrailingNewline(w[1..]);
    } else {
      assert TrimLeft(w + "\n") == w + "\n";
      assert (w + "\n")[..|w|] == w;
    }
  }

  predicate StartsWith(s: string, p: string) {
    |p| <= |s| && s[..|p|] == p
  }

  /** `p` occurs in `s` starting at index `i`. */
  predicate OccursAt(s: string, p: string, i: nat) {
    i + |p| <= |s| && s[i..i + |p|] == p
  }

  /** Python's `p in s` for strings, scanning s from the left. */
  predicate Contains(s: string, p: string)
    decreases |s|
  {
    StartsWith(s, p) || (s != [] && Contains(s[1..], p))
  }

  /** `p in s` holds exactly when p occurs in s at some index. */
  lemma {:induction false} ContainsOccurs(s: string, p: string)
    ensures Contains(s, p) <==> exists i: nat :: OccursAt(s, p, i)
    decreases |s|
  {
    if StartsWith(s, p) {
      assert OccursAt(s, p, 0);
    } else if s != [] {
      ContainsOccurs(s[1..], p);
      if Contains(s[1..], p) {
        var i: nat :| OccursAt(s[1..], p, i);
        assert s[1..][i..i + |p|] == s[i + 1..i + 1 + |p|];
        assert OccursAt(s, p, i + 1);
      }
      if exists i: nat :: OccursAt(s, p, i) {
        var i: nat :| OccursAt(s, p, i);
        assert i != 0;
        assert s[1..][i - 1..i - 1 + |p|] == s[i..i + |p|];
        assert OccursAt(s[1..], p, i - 1);
      }
    }
  }

  /** Appending a newline cannot create an occurrence of a pattern that has none. */
  lemma ContainsTrailingNewline(w: string, p: string)
    requires '\n' !in p
    ensures Contains(w + "\n", p) <==> Contains(w, p)
  {
    ContainsOccurs(w + "\n", p);
    ContainsOccurs(w, p);
    if p == [] {
      assert OccursAt(w, p, 0) && OccursAt(w + "\n", p, 0);
    } else if exists i: nat :: OccursAt(w + "\n", p, i) {
      var i: nat :| OccursAt(w + "\n", p, i);
      assert (w + "\n")[i + |p| - 1] == p[|p| - 1] != '\n';
      assert i + |p| <= |w|;
      assert (w + "\n")[i..i + |p|] == w[i..i + |p|];
      assert OccursAt(w, p, i);
    }
    if exists j: nat :: OccursAt(w, p, j) {
      var j: nat :| OccursAt(w, p, j);
      assert (w + "\n")[j..j + |p|] == w[j..j + |p|];
      assert OccursAt(w + "\n", p, j);
    }
  }

  /** A string that starts with `p` contains it. */
  lemma ContainsPrefix(s: string, p: string)
    requires StartsWith(s, p)
    ensures Contains(s, p)
  {
  }

  /** A pattern found in a suffix is found in the whole string. */
  lemma {:induction false} ContainsInSuffix(s: string, p: string, k: nat)
    requires k <= |s|
    ensures Contains(s[k..], p) ==> Contains(s, p)
    decreases k
  {
    if k > 0 {
      assert s[k - 1..][1..] == s[k..];
      ContainsInSuffix(s, p, k - 1);
    }
  }

  /** A pattern found in a prefix is found in the whole string. */
  lemma ContainsInPrefix(s: string, p: string, k: nat)
    requires k <= |s|
    ensures Contains(s[..k], p) ==> Contains(s, p)
  {
    ContainsOccurs(s[..k], p);
    ContainsOccurs(s, p);
    if Contains(s[..k], p) {
      var i: nat :| OccursAt(s[..k], p, i);
      assert s[..k][i..i + |p|] == s[i..i + |p|];
      assert OccursAt(s, p, i);
    }
  }

  /** ''.join(parts) */
  function Concat(parts: seq<string>): string
    decreases |parts|
  {
    if parts == [] then "" else parts[0] + Concat(parts[1..])
  }

  lemma {:induction false} ConcatAppend(a: seq<string>, b: seq<string>)
    ensures Concat(a + b) == Concat(a) + Concat(b)
    decreases |a|
  {
    if a == [] {
      assert a + b == b;
    } else {
      assert (a + b)[1..] == a[1..] + b;
      ConcatAppend(a[1..], b);
    }
  }

  /** sep.join(parts) */
  function Join(sep: string, parts: seq<string>): string
    decreases |parts|
  {
    if parts == [] then ""
    else if |parts| == 1 then parts[0]
    else parts[0] + sep + Join(sep, parts[1..])
  }

  /** Every part with a newline appended. */
  function Terminated(parts: seq<string>): seq<string>
    decreases |parts|
  {
    if parts == [] then [] else [parts[0] + "\n"] + Terminated(parts[1..])
  }

  lemma {:induction false} TerminatedAt(parts: seq<string>)
    ensures |Terminated(parts)| == |parts|
    ensures forall k :: 0 <= k < |parts| ==> Terminated(parts)[k] == parts[k] + "\n"
    decreases |parts|
  {
    if parts != [] {
      TerminatedAt(parts[1..]);
    }
  }

  lemma {:induction false} TerminatedAppend(a: seq<string>, b: seq<string>)
    ensures Terminated(a + b) == Terminated(a) + Terminated(b)
    decreases |a|
  {
    if a == [] {
      assert a + b == b;
    } else {
      assert (a + b)[1..] == a[1..] + b;
      TerminatedAppend(a[1..], b);
    }
  }

  /** "\n".join(parts) followed by one more newline is every part newline-terminated. */
  lemma {:induction false} JoinNewline(parts: seq<string>)
    requires parts != []
    ensures Join("\n", parts) + "\n" == Concat(Terminated(parts))
    decreases |parts|
  {
    if |parts| == 1 {
      assert Terminated(parts)[1..] == [];
    } else {
      JoinNewline(parts[1..]);
      assert Terminated(parts)[1..] == Terminated(parts[1..]);
    }
  }

  /** `a` is `b` with some elements deleted, order kept. */
  predicate IsSubseq<T(==)>(a: seq<T>, b: seq<T>)
    decreases |b|
  {
    if a == [] then true
    else if b == [] then false
    else (a[0] == b[0] && IsSubseq(a[1..], b[1..])) || IsSubseq(a, b[1..])
  }

  /** Every element of a subsequence is an element of the whole. */
  lemma {:induction false} SubseqElements<T>(a: seq<T>, b: seq<T>)
    requires IsSubseq(a, b)
    ensures |a| <= |b|
    ensures forall x :: x in a ==> x in b
    decreases |b|
  {
    if a == [] {
    } else if a[0] == b[0] && IsSubseq(a[1..], b[1..]) {
      SubseqElements(a[1..], b[1..]);
      forall x | x in a ensures x in b {
        if x != a[0] {
          assert x in a[1..];
        }
      }
    } else {
      SubseqElements(a, b[1..]);
    }
  }

  lemma {:induction false} SubseqRefl<T>(a: seq<T>)
    ensures IsSubseq(a, a)
    decreases |a|
  {
    if a != [] {
      SubseqRefl(a[1..]);
    }
  }

  /** A subsequence of a later part of `b` is a subsequence of `b`. */
  lemma {:induction false} SubseqOfSuffix<T>(a: seq<T>, b: seq<T>, k: nat)
    requires k <= |b| && IsSubseq(a, b[k..])
    ensures IsSubseq(a, b)
    decreases k
  {
    if k > 0 {
      assert b[k..] == b[1..][k - 1..];
      SubseqOfSuffix(a, b[1..], k - 1);
      if a != [] {
        assert b != [];
      }
    }
  }
}
