/**
 * String operations used by the parsers and matchers: ASCII lower-casing
 * (the model of `to_lowercase`), whitespace trimming (`trim`) and splitting
 * on the "==" separator (`split("==")`).
 */
module Text {

  /** The ASCII whitespace characters: space, tab, line feed, vertical tab, form feed, carriage return. */
  predicate IsSpace(c: char) {
    c == ' ' || '\t' <= c <= '\r'
  }

  function LowerChar(c: char): char {
    if 'A' <= c <= 'Z' then (c as int + 32) as char else c
  }

  /** ASCII lower-casing of every character. */
  function Lower(s: string): string {
    seq(|s|, i requires 0 <= i < |s| => LowerChar(s[i]))
  }

  /** No upper-case ASCII letter. */
  predicate IsLower(s: string) {
    forall i | 0 <= i < |s| :: !('A' <= s[i] <= 'Z')
  }

  /** Lower-casing leaves no upper-case letter and changes nothing in a lower-case string. */
  lemma LowerIsLower(s: string)
    ensures IsLower(Lower(s))
    ensures IsLower(s) ==> Lower(s) == s
  {
  }

  /** Drops leading whitespace. */
  function TrimStart(s: string): (r: string)
    ensures |r| <= |s| && r == s[|s| - |r|..]
    ensures r != [] ==> !IsSpace(r[0])
    ensures forall i | 0 <= i < |s| - |r| :: IsSpace(s[i])
  {
    if s != [] && IsSpace(s[0]) then TrimStart(s[1..]) else s
  }

  /** Drops trailing whitespace. */
  function TrimEnd(s: string): (r: string)
    ensures |r| <= |s| && r == s[..|r|]
    ensures r != [] ==> !IsSpace(r[|r| - 1])
    ensures forall i | |r| <= i < |s| :: IsSpace(s[i])
  {
    if s != [] && IsSpace(s[|s| - 1]) then TrimEnd(s[..|s| - 1]) else s
  }

  function Trim(s: string): string {
    TrimEnd(TrimStart(s))
  }

  lemma TrimUnpadded(s: string)
    requires s == [] || (!IsSpace(s[0]) && !IsSpace(s[|s| - 1]))
    ensures Trim(s) == s
  {
  }

  /** True when `s` holds the separator "==" somewhere. */
  predicate HasSeparator(s: string) {
    exists i :: 0 <= i < |s| - 1 && s[i] == '=' && s[i + 1] == '='
  }

  predicate NoEquals(s: string) {
    forall i :: 0 <= i < |s| ==> s[i] != '='
  }

  /**
   * `s.split("==")`: the separator is matched left to right, without overlap,
   * so "a===b" gives ["a", "=b"]. There is always at least one part and the
   * first part is a prefix of `s`.
   */
  function Split(s: string): (parts: seq<string>)
    ensures |parts| >= 1
    ensures |parts[0]| <= |s| && parts[0] == s[..|parts[0]|]
    decreases |s|
  {
    if |s| < 2 then [s]
    else if s[0] == '=' && s[1] == '=' then [""] + Split(s[2..])
    else
      var rest := Split(s[1..]);
      [[s[0]] + rest[0]] + rest[1..]
  }

  /** The inverse of Split: the parts glued back with "==". */
  function Join(parts: seq<string>): string
    requires |parts| >= 1
  {
    if |parts| == 1 then parts[0] else parts[0] + "==" + Join(parts[1..])
  }

  /** Gluing a character onto the first part glues it onto the joined string. */
  lemma JoinConsHead(c: char, parts: seq<string>)
    requires |parts| >= 1
    ensures Join([[c] + parts[0]] + parts[1..]) == [c] + Join(parts)
  {
    var head := [c] + parts[0];
    var glued := [head] + parts[1..];
    if |parts| == 1 {
      assert glued == [head];
    } else {
      assert glued[1..] == parts[1..];
      JoinAssoc(c, parts[0], Join(parts[1..]));
    }
  }

  lemma JoinAssoc(c: char, first: string, tail: string)
    ensures ([c] + first) + "==" + tail == [c] + (first + "==" + tail)
  {
  }

  /** Splitting loses nothing: joining the parts gives the input back. */
  lemma {:induction false} JoinSplit(s: string)
    ensures Join(Split(s)) == s
    decreases |s|
  {
    if |s| < 2 {
    } else if s[0] == '=' && s[1] == '=' {
      var rest := Split(s[2..]);
      JoinSplit(s[2..]);
      assert Split(s) == [""] + rest;
      assert (Split(s))[1..] == rest;
      assert Join(Split(s)) == "" + "==" + Join(rest);
      assert s == "==" + s[2..];
    } else {
      var rest := Split(s[1..]);
      JoinSplit(s[1..]);
      assert Split(s) == [[s[0]] + rest[0]] + rest[1..];
      JoinConsHead(s[0], rest);
      assert [s[0]] + s[1..] == s;
    }
  }

  /** No part holds the separator: each "==" of the input was consumed as a separator. */
  lemma {:induction false} SplitPartsHaveNoSeparator(s: string)
    ensures forall k :: 0 <= k < |Split(s)| ==> !HasSeparator(Split(s)[k])
    decreases |s|
  {
    if |s| < 2 {
    } else if s[0] == '=' && s[1] == '=' {
      SplitPartsHaveNoSeparator(s[2..]);
      var parts := Split(s);
      forall k | 0 <= k < |parts| ensures !HasSeparator(parts[k]) {
        if k > 0 {
          assert parts[k] == Split(s[2..])[k - 1];
        }
      }
    } else {
      var rest := Split(s[1..]);
      SplitPartsHaveNoSeparator(s[1..]);
      var parts := Split(s);
      var head := [s[0]] + rest[0];
      assert parts[0] == head;
      forall k | 0 <= k < |parts| ensures !HasSeparator(parts[k]) {
        if k > 0 {
          assert parts[k] == rest[k];
        }
      }
    }
  }

  /** A leading stretch without any '=' is glued onto the first part. */
  lemma {:induction false} SplitAfterPlain(p: string, rest: string)
    requires NoEquals(p)
    ensures Split(p + rest) == [p + Split(rest)[0]] + Split(rest)[1..]
    decreases |p|
  {
    var s := p + rest;
    if p == [] {
      assert s == rest;
      assert p + Split(rest)[0] == Split(rest)[0];
      assert Split(rest) == [Split(rest)[0]] + Split(rest)[1..];
    } else if |s| < 2 {
      assert rest == [] && s == p;
      assert Split(rest) == [""];
    } else {
      var tail := Split(rest);
      SplitAfterPlain(p[1..], rest);
      assert s[1..] == p[1..] + rest;
      assert Split(s[1..]) == [p[1..] + tail[0]] + tail[1..];
      assert s[0] == p[0] && s[0] != '=';
      assert Split(s) == [[s[0]] + Split(s[1..])[0]] + Split(s[1..])[1..];
      assert [p[0]] + (p[1..] + tail[0]) == p + tail[0];
    }
  }

  /** A leading separator produces an empty first part. */
  lemma SplitAfterSeparator(rest: string)
    ensures Split("==" + rest) == [""] + Split(rest)
  {
    var s := "==" + rest;
    assert s[2..] == rest;
  }

  /** A string without '=' is a single part. */
  lemma SplitPlain(p: string)
    requires NoEquals(p)
    ensures Split(p) == [p]
  {
    SplitAfterPlain(p, "");
    assert p + "" == p;
  }
}
