/** String operations of the JavaScript runtime that the recipe store relies on:
    `Array.prototype.join`, `String.prototype.includes`, `trim`, the ASCII part
    of `toLowerCase`, and the cut performed by `split(/[^a-zA-Z\s]/)[0]`.
    `Split` on one character is not called by the store; it is the reference
    inverse of `Join` in the round-trip lemmas. */
module Text {

  /** `parts.join(sep)`: the parts in order, `sep` between neighbours. The
      result starts with the first part and is as long as the parts plus one
      separator per neighbouring pair. */
  function Join(parts: seq<string>, sep: string): (r: string)
    ensures |parts| == 0 ==> r == ""
    ensures |parts| > 0 ==> IsPrefix(parts[0], r)
    ensures |parts| > 0 ==> |r| == TotalLength(parts) + (|parts| - 1) * |sep|
  {
    if |parts| == 0 then ""
    else if |parts| == 1 then parts[0]
    else parts[0] + sep + Join(parts[1..], sep)
  }

  /** The summed lengths of the parts. */
  function TotalLength(parts: seq<string>): nat
  {
    if |parts| == 0 then 0 else |parts[0]| + TotalLength(parts[1..])
  }

  /** `s.split(c)` for a one-character separator: never empty. */
  function Split(s: string, c: char): (parts: seq<string>)
    ensures |parts| >= 1
  {
    if |s| == 0 then [""]
    else
      var rest := Split(s[1..], c);
      if s[0] == c then [""] + rest
      else [[s[0]] + rest[0]] + rest[1..]
  }

  /** Splitting a text that starts with a separator-free piece `p` glues `p`
      onto the first part. */
  lemma {:induction false} SplitAfterPiece(p: string, s: string, c: char)
    requires c !in p
    ensures Split(p + s, c) == [p + Split(s, c)[0]] + Split(s, c)[1..]
  {
    if |p| > 0 {
      SplitAfterPiece(p[1..], s, c);
      assert (p + s)[1..] == p[1..] + s;
      assert [p[0]] + (p[1..] + Split(s, c)[0]) == p + Split(s, c)[0];
    } else {
      var parts := Split(s, c);
      assert p + s == s && p + parts[0] == parts[0];
      assert parts == [parts[0]] + parts[1..];
    }
  }

  /** Splitting a join on the separator gives the parts back, provided there is
      at least one part and no part contains the separator. */
  lemma {:induction false} SplitJoin(parts: seq<string>, c: char)
    requires |parts| >= 1
    requires forall i :: 0 <= i < |parts| ==> c !in parts[i]
    ensures Split(Join(parts, [c]), c) == parts
  {
    if |parts| == 1 {
      SplitAfterPiece(parts[0], "", c);
      assert parts[0] + "" == parts[0];
    } else {
      var rest := Join(parts[1..], [c]);
      SplitJoin(parts[1..], c);
      SplitAfterPiece(parts[0], [c] + rest, c);
      assert parts[0] + [c] + rest == parts[0] + ([c] + rest);
      assert ([c] + rest)[1..] == rest;
      assert Split([c] + rest, c) == [""] + parts[1..];
      assert parts[0] + "" == parts[0];
      assert parts == [parts[0]] + parts[1..];
    }
  }

  /** `sub` occurs in `s` starting at index `i`. */
  predicate OccursAt(s: string, sub: string, i: int)
  {
    0 <= i && i + |sub| <= |s| && s[i..i + |sub|] == sub
  }

  predicate IsPrefix(p: string, s: string)
  {
    |p| <= |s| && s[..|p|] == p
  }

  /** `s.includes(sub)`: try every starting position from the left. Only a
      text at least as long as `sub` can include it, and every text includes
      the empty text. */
  predicate Contains(s: string, sub: string)
    ensures Contains(s, sub) ==> |sub| <= |s|
    ensures sub == "" ==> Contains(s, sub)
    decreases |s|
  {
    IsPrefix(sub, s) || (|s| > 0 && Contains(s[1..], sub))
  }

  /** `Contains` holds exactly when `sub` occurs at some index of `s`. */
  lemma {:induction false} ContainsIffOccurs(s: string, sub: string)
    ensures Contains(s, sub) <==> exists i :: OccursAt(s, sub, i)
    decreases |s|
  {
    if IsPrefix(sub, s) {
      assert OccursAt(s, sub, 0);
    } else if |s| > 0 {
      ContainsIffOccurs(s[1..], sub);
      if Contains(s[1..], sub) {
        var i :| OccursAt(s[1..], sub, i);
        assert s[1..][i..i + |sub|] == s[i + 1..i + 1 + |sub|];
        assert OccursAt(s, sub, i + 1);
      }
      if i :| OccursAt(s, sub, i) {
        assert i != 0;
        assert s[1..][i - 1..i - 1 + |sub|] == s[i..i + |sub|];
        assert OccursAt(s[1..], sub, i - 1);
      }
    }
  }

  predicate IsUpper(c: char) { 'A' <= c <= 'Z' }

  predicate IsLower(c: char) { 'a' <= c <= 'z' }

  /** The class `[a-zA-Z]`. */
  predicate IsLetter(c: char) { IsUpper(c) || IsLower(c) }

  /** The class `\s`, which is also what `trim` removes: the ECMAScript
      WhiteSpace and LineTerminator code points. */
  predicate IsSpace(c: char)
  {
    var n := c as int;
    n == 0x09 || n == 0x0A || n == 0x0B || n == 0x0C || n == 0x0D || n == 0x20 ||
    n == 0xA0 || n == 0x1680 || (0x2000 <= n <= 0x200A) || n == 0x2028 ||
    n == 0x2029 || n == 0x202F || n == 0x205F || n == 0x3000 || n == 0xFEFF
  }

  /** The characters that `split(/[^a-zA-Z\s]/)` does not split on. */
  predicate IsNameChar(c: char) { IsLetter(c) || IsSpace(c) }

  /** `toLowerCase` on one character, ASCII letters only. */
  function LowerChar(c: char): (d: char)
    ensures IsUpper(c) ==> IsLower(d) && d as int == c as int + 32
    ensures !IsUpper(c) ==> d == c
  {
    if IsUpper(c) then (c as int + 32) as char else c
  }

  /** `toLowerCase`, ASCII letters only: no upper-case letter remains, and
      every other character is kept in place. */
  function Lower(s: string): (r: string)
    ensures |r| == |s|
    ensures forall i :: 0 <= i < |s| ==> r[i] == LowerChar(s[i])
    ensures forall i :: 0 <= i < |r| ==> !IsUpper(r[i])
    ensures forall i :: 0 <= i < |s| && !IsUpper(s[i]) ==> r[i] == s[i]
  {
    seq(|s|, i requires 0 <= i < |s| => LowerChar(s[i]))
  }

  /** Lower-casing a letter gives a lower-case letter, and lower-casing white
      space leaves it white space. */
  lemma LowerCharOfNameChar(c: char)
    requires IsNameChar(c)
    ensures IsLower(LowerChar(c)) || IsSpace(LowerChar(c))
    ensures IsSpace(LowerChar(c)) <==> IsSpace(c)
  {
    if IsUpper(c) {
      assert IsLower(LowerChar(c));
    }
  }

  /** Lower-casing letters and white space gives lower-case letters and the
      same white space. */
  lemma LowerOfNameChars(s: string)
    requires forall i :: 0 <= i < |s| ==> IsNameChar(s[i])
    ensures forall i :: 0 <= i < |s| ==> IsLower(Lower(s)[i]) || IsSpace(Lower(s)[i])
    ensures forall i :: 0 <= i < |s| ==> (IsSpace(Lower(s)[i]) <==> IsSpace(s[i]))
  {
    forall i | 0 <= i < |s|
      ensures IsLower(Lower(s)[i]) || IsSpace(Lower(s)[i])
      ensures IsSpace(Lower(s)[i]) <==> IsSpace(s[i])
    {
      LowerCharOfNameChar(s[i]);
    }
  }

  /** `s.split(/[^a-zA-Z\s]/)[0]`: the longest prefix made of letters and
      white space, that is, `s` cut at its first other character. */
  function NamePrefix(s: string): (p: string)
    ensures IsPrefix(p, s)
    ensures forall i :: 0 <= i < |p| ==> IsNameChar(p[i])
    ensures |p| == |s| || !IsNameChar(s[|p|])
  {
    if |s| == 0 || !IsNameChar(s[0]) then ""
    else [s[0]] + NamePrefix(s[1..])
  }

  /** `NamePrefix` is determined by its contract: the prefix of length `k`
      when exactly the first `k` characters are letters or white space. */
  lemma NamePrefixIs(s: string, k: nat)
    requires k <= |s|
    requires forall i :: 0 <= i < k ==> IsNameChar(s[i])
    requires k == |s| || !IsNameChar(s[k])
    ensures NamePrefix(s) == s[..k]
  {
  }

  /** `trimStart`: `s` without its leading white space. */
  function TrimStart(s: string): (t: string)
    ensures |t| <= |s| && t == s[|s| - |t|..]
    ensures forall i :: 0 <= i < |s| - |t| ==> IsSpace(s[i])
    ensures t == "" || !IsSpace(t[0])
  {
    if |s| > 0 && IsSpace(s[0]) then TrimStart(s[1..]) else s
  }

  /** `trimEnd`: `s` without its trailing white space. */
  function TrimEnd(s: string): (t: string)
    ensures |t| <= |s| && t == s[..|t|]
    ensures forall i :: |t| <= i < |s| ==> IsSpace(s[i])
    ensures t == "" || !IsSpace(t[|t| - 1])
  {
    if |s| > 0 && IsSpace(s[|s| - 1]) then TrimEnd(s[..|s| - 1]) else s
  }

  /** `trim`: `s` without white space at either end; what remains is the
      slice `s[a..a + |t|]` and only white space lies outside it. */
  function Trim(s: string): (t: string)
    ensures t == "" || (!IsSpace(t[0]) && !IsSpace(t[|t| - 1]))
    ensures exists a :: TrimmedAt(s, t, a)
  {
    var u := TrimStart(s);
    var t := TrimEnd(u);
    var a := |s| - |u|;
    assert t == "" || t[0] == u[0];
    assert t == s[a..a + |t|];
    forall i | a + |t| <= i < |s| ensures IsSpace(s[i]) {
      assert s[i] == u[i - a];
    }
    assert TrimmedAt(s, t, a);
    t
  }

  /** `t` is the slice of `s` starting at `a`, and only white space lies
      outside that slice. */
  predicate TrimmedAt(s: string, t: string, a: int)
  {
    0 <= a <= |s| - |t| && t == s[a..a + |t|] &&
    (forall i :: 0 <= i < a ==> IsSpace(s[i])) &&
    (forall i :: a + |t| <= i < |s| ==> IsSpace(s[i]))
  }

  /** A text with no white space at either end is its own trim. */
  lemma TrimUnchanged(s: string)
    requires s == "" || (!IsSpace(s[0]) && !IsSpace(s[|s| - 1]))
    ensures Trim(s) == s
  {
    assert TrimStart(s) == s;
    assert TrimEnd(s) == s;
  }
}
