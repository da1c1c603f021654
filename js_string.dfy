/**
 * The few JavaScript string operations the backend relies on: `trim` (the schema's
 * `trim: true`), `toLowerCase` (the schema's `lowercase: true` and a case-insensitive
 * match), `startsWith` and `split` on a one-character separator, and truthiness.
 */
module JsString {
  import opened Wrappers

  /** WhiteSpace and LineTerminator code points of ECMA-262, which `String.prototype.trim` removes. */
  predicate IsWhiteSpace(c: char) {
    c == '\t' || c == '\n' || c == '\U{000B}' || c == '\U{000C}' || c == '\r' || c == ' '
    || c == '\U{00A0}' || c == '\U{1680}' || ('\U{2000}' <= c <= '\U{200A}')
    || c == '\U{2028}' || c == '\U{2029}' || c == '\U{202F}' || c == '\U{205F}'
    || c == '\U{3000}' || c == '\U{FEFF}'
  }

  /** Every character of `s` from index `lo` up to, not including, `hi` is white space. */
  predicate WhiteBetween(s: string, lo: int, hi: int) {
    forall k :: lo <= k < hi && 0 <= k < |s| ==> IsWhiteSpace(s[k])
  }

  /** `s` neither begins nor ends with white space. */
  predicate Trimmed(s: string) {
    s == [] || (!IsWhiteSpace(s[0]) && !IsWhiteSpace(s[|s| - 1]))
  }

  /** Drops the leading white space: the result is a suffix of `s` and all that was dropped is white space. */
  function TrimStart(s: string): (r: string)
    ensures |r| <= |s| && r == s[|s| - |r|..]
    ensures forall i :: 0 <= i < |s| - |r| ==> IsWhiteSpace(s[i])
    ensures r == [] || !IsWhiteSpace(r[0])
    decreases |s|
  {
    if s != [] && IsWhiteSpace(s[0]) then TrimStart(s[1..]) else s
  }

  /** Drops the trailing white space: the result is a prefix of `s` and all that was dropped is white space. */
  function TrimEnd(s: string): (r: string)
    ensures |r| <= |s| && r == s[..|r|]
    ensures forall i :: |r| <= i < |s| ==> IsWhiteSpace(s[i])
    ensures r == [] || !IsWhiteSpace(r[|r| - 1])
    decreases |s|
  {
    if s != [] && IsWhiteSpace(s[|s| - 1]) then TrimEnd(s[..|s| - 1]) else s
  }

  /** `String.prototype.trim`: a string without white space at either end, and `s` itself when it had none. */
  function Trim(s: string): (r: string)
    ensures |r| <= |s| && Trimmed(r)
    ensures Trimmed(s) ==> r == s
  {
    var u := TrimStart(s);
    var r := TrimEnd(u);
    assert Trimmed(r) by {
      if r != [] {
        assert r[0] == u[0];
      }
    }
    assert Trimmed(s) ==> r == s by {
      if Trimmed(s) && s != [] {
        assert u == s;
      }
    }
    r
  }

  /**
   * What `trim` keeps is the part of `s` between its leading and its trailing white space:
   * `Trim(s)` is the infix `s[i..i + |Trim(s)|]`, and everything before and after it is white
   * space. With `Trimmed(Trim(s))` this pins the result down.
   */
  lemma TrimInfix(s: string)
    ensures var i, r := |s| - |TrimStart(s)|, Trim(s);
            && i + |r| <= |s| && r == s[i..i + |r|]
            && WhiteBetween(s, 0, i) && WhiteBetween(s, i + |r|, |s|)
  {
    var u := TrimStart(s);
    var r := TrimEnd(u);
    var i := |s| - |u|;
    assert r == s[i..i + |r|];
    TailWhite(s, u, |r|);
  }

  /** White space behind the first `n` characters of a suffix `u` of `s` is white space of `s`. */
  lemma TailWhite(s: string, u: string, n: nat)
    requires |u| <= |s| && u == s[|s| - |u|..]
    requires n <= |u| && forall k :: n <= k < |u| ==> IsWhiteSpace(u[k])
    ensures WhiteBetween(s, |s| - |u| + n, |s|)
  {
    forall k | |s| - |u| + n <= k < |s|
      ensures IsWhiteSpace(s[k])
    {
      assert s[k] == u[k - (|s| - |u|)];
    }
  }

  /** The value of an optional string path after a `trim` setter. */
  function TrimmedValue(v: Option<string>): (r: Option<string>)
    ensures r.Some? <==> v.Some?
    ensures r.Some? ==> Trimmed(r.value) && r.value == Trim(v.value)
  {
    match v
    case Some(s) => Some(Trim(s))
    case None => None
  }

  /** Trimming twice is trimming once, so a stored, already trimmed value is kept as it is. */
  lemma TrimIdempotent(s: string)
    ensures Trim(Trim(s)) == Trim(s)
  {
  }

  /** The ASCII lower-case of one character; every other character is kept. */
  function LowerChar(c: char): (d: char)
    ensures 'A' <= c <= 'Z' ==> 'a' <= d <= 'z' && d as int - c as int == 32
    ensures !('A' <= c <= 'Z') ==> d == c
  {
    if 'A' <= c <= 'Z' then (c as int + 32) as char else c
  }

  /** `String.prototype.toLowerCase`, restricted to ASCII letters: the same length, each character lowered. */
  function ToLowerCase(s: string): (r: string)
    ensures |r| == |s|
    ensures forall i :: 0 <= i < |s| ==> r[i] == LowerChar(s[i])
    ensures forall i :: 0 <= i < |r| ==> !('A' <= r[i] <= 'Z')
  {
    seq(|s|, i requires 0 <= i < |s| => LowerChar(s[i]))
  }

  lemma LowerIdempotent(s: string)
    ensures ToLowerCase(ToLowerCase(s)) == ToLowerCase(s)
  {
  }

  lemma {:induction false} LowerTrimStart(s: string)
    ensures ToLowerCase(TrimStart(s)) == TrimStart(ToLowerCase(s))
    decreases |s|
  {
    var l := ToLowerCase(s);
    if s != [] && IsWhiteSpace(s[0]) {
      assert l[1..] == ToLowerCase(s[1..]);
      LowerTrimStart(s[1..]);
    } else if s != [] {
      assert !IsWhiteSpace(l[0]);
    }
  }

  lemma {:induction false} LowerTrimEnd(s: string)
    ensures ToLowerCase(TrimEnd(s)) == TrimEnd(ToLowerCase(s))
    decreases |s|
  {
    var l := ToLowerCase(s);
    if s != [] && IsWhiteSpace(s[|s| - 1]) {
      assert l[..|l| - 1] == ToLowerCase(s[..|s| - 1]);
      LowerTrimEnd(s[..|s| - 1]);
    } else if s != [] {
      assert !IsWhiteSpace(l[|l| - 1]);
    }
  }

  /**
   * The schema lists `trim: true` and `lowercase: true` on the same path; the order in which
   * Mongoose applies the two does not matter, because lowering never creates or removes white space.
   */
  lemma LowerTrimCommute(s: string)
    ensures ToLowerCase(Trim(s)) == Trim(ToLowerCase(s))
  {
    LowerTrimStart(s);
    LowerTrimEnd(TrimStart(s));
  }

  /** Equality after lowering both sides: a whole-string match with the regular expression flag `i`. */
  predicate EqualsIgnoreCase(a: string, b: string) {
    ToLowerCase(a) == ToLowerCase(b)
  }

  /** `String.prototype.startsWith`. */
  predicate StartsWith(s: string, prefix: string) {
    |prefix| <= |s| && s[..|prefix|] == prefix
  }

  /** JavaScript truthiness of an optional string: present and not empty. */
  predicate Truthy(v: Option<string>) {
    v.Some? && v.value != ""
  }

  /** `parts.join(sep)` for a one-character separator. */
  function Join(parts: seq<string>, sep: char): string
    requires |parts| >= 1
  {
    if |parts| == 1 then parts[0] else parts[0] + [sep] + Join(parts[1..], sep)
  }

  predicate SeparatorFree(parts: seq<string>, sep: char) {
    forall k :: 0 <= k < |parts| ==> sep !in parts[k]
  }

  /**
   * `s.split(sep)` for a one-character separator: never empty, no part holds the separator,
   * and joining the parts with the separator gives `s` back.
   */
  function Split(s: string, sep: char): (parts: seq<string>)
    ensures |parts| >= 1
    ensures SeparatorFree(parts, sep)
    ensures Join(parts, sep) == s
    decreases |s|
  {
    if s == [] then [""]
    else
      var rest := Split(s[1..], sep);
      if s[0] == sep then
        assert Join([""] + rest, sep) == [sep] + Join(rest, sep) by {
          assert ([""] + rest)[1..] == rest;
        }
        [""] + rest
      else
        var parts := [[s[0]] + rest[0]] + rest[1..];
        assert Join(parts, sep) == [s[0]] + Join(rest, sep) by {
          if |rest| > 1 {
            assert parts[1..] == rest[1..];
          }
        }
        parts
  }

  /**
   * Where the parts of a separator-free join sit: the first part runs up to the first
   * separator, and there is a separator exactly when there is more than one part.
   */
  lemma {:induction false} JoinShape(p: seq<string>, sep: char)
    requires |p| >= 1 && SeparatorFree(p, sep)
    ensures |p[0]| <= |Join(p, sep)| && Join(p, sep)[..|p[0]|] == p[0]
    ensures forall i :: 0 <= i < |p[0]| ==> Join(p, sep)[i] != sep
    ensures |p| == 1 <==> sep !in Join(p, sep)
    ensures |p| > 1 ==> |p[0]| < |Join(p, sep)| && Join(p, sep)[|p[0]|] == sep
                        && Join(p, sep)[|p[0]| + 1..] == Join(p[1..], sep)
    decreases |p|
  {
    if |p| > 1 {
      var j := Join(p, sep);
      assert j == p[0] + [sep] + Join(p[1..], sep);
      assert j[|p[0]|] == sep;
      assert j[|p[0]| + 1..] == Join(p[1..], sep);
    }
  }

  /** A separator-free sequence of parts is recovered from its join. */
  lemma {:induction false} JoinInjective(p: seq<string>, q: seq<string>, sep: char)
    requires |p| >= 1 && |q| >= 1
    requires SeparatorFree(p, sep) && SeparatorFree(q, sep)
    requires Join(p, sep) == Join(q, sep)
    ensures p == q
    decreases |p|
  {
    var j := Join(p, sep);
    JoinShape(p, sep);
    JoinShape(q, sep);
    if |p| > 1 {
      assert |q| > 1;
      assert |p[0]| == |q[0]|;
      assert p[0] == q[0];
      JoinInjective(p[1..], q[1..], sep);
      assert p == [p[0]] + p[1..];
      assert q == [q[0]] + q[1..];
    } else {
      assert |q| == 1;
    }
  }

  /** The other round trip: splitting the join of separator-free parts gives the parts back. */
  lemma SplitJoin(parts: seq<string>, sep: char)
    requires |parts| >= 1 && SeparatorFree(parts, sep)
    ensures Split(Join(parts, sep), sep) == parts
  {
    JoinInjective(Split(Join(parts, sep), sep), parts, sep);
  }
}
