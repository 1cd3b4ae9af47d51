/** The string primitives of Python that the client leans on, over ASCII:
    `isdigit`, `isalnum`, `isspace`, `lower`, `strip`, `replace` of a
    two-character pattern, `split` on one separator and `join`. */
module Text {

  predicate IsDigit(c: char) { '0' <= c <= '9' }

  predicate IsUpper(c: char) { 'A' <= c <= 'Z' }

  predicate IsAlnum(c: char) { IsDigit(c) || 'a' <= c <= 'z' || IsUpper(c) }

  /** The ASCII characters Python's `str.isspace` accepts. */
  predicate IsSpace(c: char) {
    c == ' ' || 9 <= c as int <= 13 || 28 <= c as int <= 31
  }

  predicate IsAscii(s: string) { forall i :: 0 <= i < |s| ==> s[i] as int < 128 }

  function ToLower(c: char): (r: char)
    ensures IsAlnum(c) <==> IsAlnum(r)
    ensures IsAlnum(c) ==> !IsUpper(r)
    ensures r == ' ' <==> c == ' '
  {
    if IsUpper(c) then (c as int + 32) as char else c
  }

  function Lower(s: string): (r: string)
    ensures |r| == |s|
    ensures forall i :: 0 <= i < |s| ==> r[i] == ToLower(s[i])
  {
    if s == [] then [] else [ToLower(s[0])] + Lower(s[1..])
  }

  /** True when `a` is immediately followed by `b` somewhere in `s`. */
  predicate HasPair(s: string, a: char, b: char) {
    exists i :: 0 <= i < |s| - 1 && s[i] == a && s[i + 1] == b
  }

  /** Python `s.replace(a + b, a)`: every non-overlapping occurrence of the
      pair, scanned left to right, loses its second character. */
  function Squash(s: string, a: char, b: char): (r: string)
    ensures |r| <= |s|
    ensures HasPair(s, a, b) ==> |r| < |s|
    ensures |s| > 0 ==> |r| > 0 && r[0] == s[0]
    ensures |s| > 0 && a == b ==> r[|r| - 1] == s[|s| - 1]
  {
    if |s| < 2 then s
    else if s[0] == a && s[1] == b then
      var rest := Squash(s[2..], a, b);
      assert HasPair(s, a, b);
      [a] + rest
    else
      var rest := Squash(s[1..], a, b);
      assert HasPair(s, a, b) ==> HasPair(s[1..], a, b) by {
        if HasPair(s, a, b) {
          var i :| 0 <= i < |s| - 1 && s[i] == a && s[i + 1] == b;
          assert i != 0;
          assert s[1..][i - 1] == a && s[1..][i] == b;
        }
      }
      [s[0]] + rest
  }

  /** Python `while '  ' in s: s = s.replace('  ', ' ')`. */
  function Collapse(s: string): (r: string)
    ensures !HasPair(r, ' ', ' ')
    decreases |s|
  {
    if HasPair(s, ' ', ' ') then Collapse(Squash(s, ' ', ' ')) else s
  }

  function TrimLeft(s: string): (r: string)
    ensures |r| <= |s| && r == s[|s| - |r|..]
    ensures r == [] || !IsSpace(r[0])
  {
    if s != [] && IsSpace(s[0]) then TrimLeft(s[1..]) else s
  }

  function TrimRight(s: string): (r: string)
    ensures |r| <= |s| && r == s[..|r|]
    ensures r == [] || !IsSpace(r[|r| - 1])
  {
    if s != [] && IsSpace(s[|s| - 1]) then TrimRight(s[..|s| - 1]) else s
  }

  /** Python `s.strip()`. */
  function Strip(s: string): string
  {
    TrimRight(TrimLeft(s))
  }

  /** Python `s.split(c)` for a one-character separator: the pieces between
      separators, so there is always one more piece than separators. */
  function Split(s: string, c: char): (r: seq<string>)
    ensures |r| >= 1
    ensures r[0] == [] <==> (s == [] || s[0] == c)
    ensures forall k :: 0 <= k < |r| ==> c !in r[k]
  {
    if s == [] then [[]]
    else
      var rest := Split(s[1..], c);
      if s[0] == c then [[]] + rest
      else [[s[0]] + rest[0]] + rest[1..]
  }

  /** Python `c.join(parts)`. */
  function Join(parts: seq<string>, c: char): string
  {
    if parts == [] then []
    else if |parts| == 1 then parts[0]
    else parts[0] + [c] + Join(parts[1..], c)
  }

  lemma {:induction false} SplitJoin(s: string, c: char)
    ensures Join(Split(s, c), c) == s
  {
    if s != [] {
      var rest := Split(s[1..], c);
      SplitJoin(s[1..], c);
      if s[0] == c {
        assert Split(s, c) == [[]] + rest;
        assert s == [c] + s[1..];
      } else {
        assert Split(s, c) == [[s[0]] + rest[0]] + rest[1..];
        if |rest| == 1 {
          assert s[1..] == rest[0];
        } else {
          assert Join(rest, c) == rest[0] + [c] + Join(rest[1..], c);
          assert ([[s[0]] + rest[0]] + rest[1..])[1..] == rest[1..];
        }
      }
    }
  }

  lemma {:induction false} SplitAtSeparator(u: string, z: string, c: char)
    ensures Split(u + [c] + z, c) == Split(u, c) + Split(z, c)
  {
    if u == [] {
      assert u + [c] + z == [c] + z;
      assert ([c] + z)[1..] == z;
    } else {
      assert (u + [c] + z)[1..] == u[1..] + [c] + z;
      SplitAtSeparator(u[1..], z, c);
    }
  }

  lemma {:induction false} SplitWithoutSeparator(u: string, c: char)
    requires c !in u
    ensures Split(u, c) == [u]
  {
    if u != [] {
      SplitWithoutSeparator(u[1..], c);
      assert [u[0]] + u[1..] == u;
    }
  }
}
