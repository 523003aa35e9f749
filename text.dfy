/** Character classes and string helpers shared by every pass.

    Ruby's regular-expression classes are modelled on ASCII:
    `\s` is space, tab, line feed, vertical tab, form feed and carriage
    return; `\w` is `[A-Za-z0-9_]`.  `String#strip` removes the same
    characters plus NUL from both ends. */
module Text {

  datatype Option<T> = None | Some(value: T)

  /** Ruby's `\s`. */
  predicate IsSpace(c: char) {
    c == ' ' || c == '\t' || c == '\n' || c == '\U{000B}' || c == '\U{000C}' || c == '\r'
  }

  /** What `String#strip` removes: `\s` and NUL. */
  predicate IsStripSpace(c: char) {
    IsSpace(c) || c == '\0'
  }

  /** Ruby's `\w`. */
  predicate IsWord(c: char) {
    ('a' <= c <= 'z') || ('A' <= c <= 'Z') || ('0' <= c <= '9') || c == '_'
  }

  /** ASCII lower-casing, the case folding a `/i` regexp applies to ASCII letters. */
  function Lower(c: char): (r: char)
    ensures 'A' <= c <= 'Z' ==> r as int == c as int + 32
    ensures !('A' <= c <= 'Z') ==> r == c
  {
    if 'A' <= c <= 'Z' then (c as int + 32) as char else c
  }

  /** `lstrip`: drops leading strip-space and keeps a suffix. */
  function TrimStart(s: string): (r: string)
    ensures |r| <= |s|
    ensures r == [] || !IsStripSpace(r[0])
    ensures forall i :: 0 <= i < |s| - |r| ==> IsStripSpace(s[i])
    decreases |s|
  {
    if s != [] && IsStripSpace(s[0]) then TrimStart(s[1..]) else s
  }

  /** What `lstrip` keeps is the suffix of its input after the blank prefix. */
  lemma {:induction false} TrimStartSuffix(s: string)
    ensures TrimStart(s) == s[|s| - |TrimStart(s)|..]
    decreases |s|
  {
    if s != [] && IsStripSpace(s[0]) {
      TrimStartSuffix(s[1..]);
      assert s[1..][|s[1..]| - |TrimStart(s[1..])|..] == s[|s| - |TrimStart(s)|..];
    }
  }

  /** `rstrip`: drops trailing strip-space and keeps a prefix. */
  function TrimEnd(s: string): (r: string)
    ensures |r| <= |s| && r == s[..|r|]
    ensures r == [] || !IsStripSpace(r[|r| - 1])
    ensures forall i :: |r| <= i < |s| ==> IsStripSpace(s[i])
    decreases |s|
  {
    if s != [] && IsStripSpace(s[|s| - 1]) then TrimEnd(s[..|s| - 1]) else s
  }

  /** `String#strip`. */
  function Strip(s: string): (r: string)
    ensures r == [] || (!IsStripSpace(r[0]) && !IsStripSpace(r[|r| - 1]))
    ensures Visible(r) == Visible(s)
  {
    var a := TrimStart(s);
    StripVisible(s, a, TrimEnd(a));
    TrimEnd(a)
  }

  /** The characters of `s` that `strip` would never remove, in order. */
  function Visible(s: string): seq<char>
    decreases |s|
  {
    if s == [] then [] else (if IsStripSpace(s[0]) then [] else [s[0]]) + Visible(s[1..])
  }

  lemma {:induction false} VisibleAppend(a: string, b: string)
    ensures Visible(a + b) == Visible(a) + Visible(b)
    decreases |a|
  {
    if a == [] {
      assert a + b == b;
    } else {
      assert (a + b)[1..] == a[1..] + b;
      VisibleAppend(a[1..], b);
    }
  }

  /** A text that ends in a visible character ends its visible characters with it. */
  lemma VisibleLast(s: string)
    requires s != [] && !IsStripSpace(s[|s| - 1])
    ensures var v := Visible(s); v != [] && v[|v| - 1] == s[|s| - 1]
  {
    var c := s[|s| - 1];
    assert s[..|s| - 1] + [c] == s;
    VisibleAppend(s[..|s| - 1], [c]);
    assert Visible([c]) == [c] + Visible([]);
  }

  /** A string made only of strip-space has nothing visible. */
  lemma {:induction false} VisibleOfBlank(s: string)
    requires forall i :: 0 <= i < |s| ==> IsStripSpace(s[i])
    ensures Visible(s) == []
    decreases |s|
  {
    if s != [] {
      VisibleOfBlank(s[1..]);
    }
  }

  /** Dropping a blank prefix keeps what is visible. */
  lemma VisibleSuffix(s: string, k: nat)
    requires k <= |s|
    requires forall i :: 0 <= i < k ==> IsStripSpace(s[i])
    ensures Visible(s[k..]) == Visible(s)
  {
    assert s == s[..k] + s[k..];
    VisibleAppend(s[..k], s[k..]);
    VisibleOfBlank(s[..k]);
  }

  /** Dropping a blank suffix keeps what is visible. */
  lemma VisiblePrefix(s: string, k: nat)
    requires k <= |s|
    requires forall i :: k <= i < |s| ==> IsStripSpace(s[i])
    ensures Visible(s[..k]) == Visible(s)
  {
    assert s == s[..k] + s[k..];
    VisibleAppend(s[..k], s[k..]);
    VisibleOfBlank(s[k..]);
  }

  lemma StripVisible(s: string, a: string, r: string)
    requires a == TrimStart(s) && r == TrimEnd(a)
    ensures Visible(r) == Visible(s)
  {
    VisibleSuffix(s, |s| - |a|);
    VisiblePrefix(a, |r|);
  }

  /** `strip` returns a contiguous slice of its input. */
  lemma StripIsSlice(s: string)
    ensures var k := |s| - |TrimStart(s)|;
      k + |Strip(s)| <= |s| && Strip(s) == s[k..k + |Strip(s)|]
  {
    TrimStartSuffix(s);
  }

  /** `strip` leaves a string alone when neither end is strip-space. */
  lemma StripTrimmed(s: string)
    requires s == [] || (!IsStripSpace(s[0]) && !IsStripSpace(s[|s| - 1]))
    ensures Strip(s) == s
  {
  }

  /** `t` occurs in `s` starting at `i`. */
  predicate OccursAt(s: string, t: string, i: nat) {
    i + |t| <= |s| && s[i..i + |t|] == t
  }

  /** `t` is a substring of `s`. */
  predicate Contains(s: string, t: string) {
    exists i: nat | i <= |s| :: OccursAt(s, t, i)
  }

  predicate EndsWith(s: string, t: string) {
    |t| <= |s| && s[|s| - |t|..] == t
  }

  /** Where the pieces of a five-part text sit in it. */
  lemma Pieces5(a: string, b: string, c: string, d: string, e: string)
    ensures var s := a + b + c + d + e;
      a <= s && Contains(s, b) && Contains(s, d) && EndsWith(s, e)
  {
    var s := a + b + c + d + e;
    assert s[..|a|] == a;
    assert s[|a|..|a| + |b|] == b;
    assert OccursAt(s, b, |a|);
    assert s[|a + b + c|..|a + b + c| + |d|] == d;
    assert OccursAt(s, d, |a + b + c|);
  }

  /** Where the pieces of a six-part text sit in it. */
  lemma Pieces6(a: string, b: string, c: string, d: string, e: string, g: string)
    ensures var s := a + b + c + d + e + g;
      && a <= s && Contains(s, b) && Contains(s, d) && Contains(s, c + d + e) && EndsWith(s, g)
  {
    var s := a + b + c + d + e + g;
    assert s[..|a|] == a;
    assert s[|a|..|a| + |b|] == b;
    assert OccursAt(s, b, |a|);
    assert s[|a + b + c|..|a + b + c| + |d|] == d;
    assert OccursAt(s, d, |a + b + c|);
    assert s[|a + b|..|a + b| + |c + d + e|] == c + d + e;
    assert OccursAt(s, c + d + e, |a + b|);
  }

  /** `Array#join(sep)`. */
  function Join(parts: seq<string>, sep: string): string
    decreases |parts|
  {
    if parts == [] then []
    else if |parts| == 1 then parts[0]
    else parts[0] + sep + Join(parts[1..], sep)
  }

  /** The join ends like its last part. */
  lemma {:induction false} JoinLast(parts: seq<string>, sep: string)
    requires parts != [] && parts[|parts| - 1] != []
    ensures var j := Join(parts, sep);
      j != [] && j[|j| - 1] == parts[|parts| - 1][|parts[|parts| - 1]| - 1]
    decreases |parts|
  {
    if |parts| > 1 {
      JoinLast(parts[1..], sep);
    }
  }

  /** The join starts like its first part and ends like its last one. */
  lemma JoinEnds(parts: seq<string>, sep: string)
    requires parts != [] && parts[0] != [] && parts[|parts| - 1] != []
    ensures var j := Join(parts, sep);
      j != [] && j[0] == parts[0][0] && j[|j| - 1] == parts[|parts| - 1][|parts[|parts| - 1]| - 1]
  {
    JoinLast(parts, sep);
  }

  /** A character absent from every part and from the separator is absent from the join. */
  lemma {:induction false} JoinExcludes(parts: seq<string>, sep: string, c: char)
    requires c !in sep
    requires forall i :: 0 <= i < |parts| ==> c !in parts[i]
    ensures c !in Join(parts, sep)
    decreases |parts|
  {
    if |parts| > 1 {
      JoinExcludes(parts[1..], sep, c);
    }
  }
}
