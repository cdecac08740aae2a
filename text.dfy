/**
 * The handful of Python string built-ins the contact bot relies on:
 * `str.split()` (no argument), `str.lower()`, `str.isdigit()` and
 * `sep.join(parts)`. `SplitOn` is Python's `s.split(c)`, which the bot does
 * not call: it is the inverse of the newline join in `show_all`, used to
 * state the layout of the listing.
 */
module Text {

  /** Python's `str.isspace` for one character: exactly the characters that
      `str.split()` with no argument treats as separators. */
  predicate IsSpace(c: char) {
    || c == ' '
    || ('\t' <= c <= '\r')
    || ('\U{1C}' <= c <= '\U{1F}')
    || c == '\U{85}' || c == '\U{A0}' || c == '\U{1680}'
    || ('\U{2000}' <= c <= '\U{200A}')
    || c == '\U{2028}' || c == '\U{2029}' || c == '\U{202F}'
    || c == '\U{205F}' || c == '\U{3000}'
  }

  /** A token produced by `str.split()`: non-empty, and free of whitespace. */
  predicate IsToken(t: string) {
    t != [] && forall i :: 0 <= i < |t| ==> !IsSpace(t[i])
  }

  predicate AllSpace(s: string) {
    forall i :: 0 <= i < |s| ==> IsSpace(s[i])
  }

  /** Length of the run of non-whitespace at the start of `s`. */
  function WordRun(s: string): (n: nat)
    ensures n <= |s|
    ensures forall i :: 0 <= i < n ==> !IsSpace(s[i])
    ensures n < |s| ==> IsSpace(s[n])
  {
    if s == [] || IsSpace(s[0]) then 0 else 1 + WordRun(s[1..])
  }

  /** Python's `s.split()`: the maximal runs of non-whitespace, in order. */
  function Split(s: string): (tokens: seq<string>)
    ensures forall k :: 0 <= k < |tokens| ==> IsToken(tokens[k])
    decreases |s|
  {
    if s == [] then []
    else if IsSpace(s[0]) then Split(s[1..])
    else
      var n := WordRun(s);
      [s[..n]] + Split(s[n..])
  }

  /** Python's `sep.join(parts)`: the first part starts the result. */
  function Join(sep: string, parts: seq<string>): (r: string)
    ensures parts != [] ==> parts[0] <= r
  {
    if parts == [] then ""
    else if |parts| == 1 then parts[0]
    else parts[0] + sep + Join(sep, parts[1..])
  }

  /** Python's `s.split(sep)` for a single separator character, which the
      bot itself does not call: the reference inverse of `Join([sep], _)`.
      Always at least one part, no part holds the separator, and joining
      the parts with the separator gives back `s`. */
  function SplitOn(sep: char, s: string): (parts: seq<string>)
    ensures parts != []
    ensures forall k, i :: 0 <= k < |parts| && 0 <= i < |parts[k]| ==> parts[k][i] != sep
    ensures Join([sep], parts) == s
  {
    if s == [] then [""]
    else
      var rest := SplitOn(sep, s[1..]);
      if s[0] == sep then [""] + rest
      else [[s[0]] + rest[0]] + rest[1..]
  }

  /** Python's `str.lower()` on one character, for ASCII letters. */
  function LowerChar(c: char): char {
    if 'A' <= c <= 'Z' then (c as int + 32) as char else c
  }

  /** Python's `str.lower()`, ASCII letters only: same length, no upper-case
      letter left, and each character either kept or an upper-case letter
      turned into its lower-case one. */
  function Lower(s: string): (r: string)
    ensures |r| == |s|
    ensures forall i :: 0 <= i < |r| ==> !('A' <= r[i] <= 'Z')
    ensures forall i :: 0 <= i < |s| ==>
      r[i] == s[i] || ('A' <= s[i] <= 'Z' && r[i] as int == s[i] as int + 32)
  {
    seq(|s|, i requires 0 <= i < |s| => LowerChar(s[i]))
  }

  /** Python's `str.isdigit()`, restricted to the ASCII digits. A digit
      string is a single token: `str.split()` never breaks it. */
  predicate IsDigits(s: string)
    ensures IsDigits(s) ==> IsToken(s)
  {
    s != [] && forall i :: 0 <= i < |s| ==> '0' <= s[i] <= '9'
  }

  predicate IsLowerWord(w: string) {
    forall i :: 0 <= i < |w| ==> 'a' <= w[i] <= 'z'
  }

  /** `t` spells the lower-case word `w`, each letter in either case: the
      reference meaning of a case-insensitive match. */
  predicate EqualsIgnoringCase(t: string, w: string) {
    |t| == |w| &&
    forall i :: 0 <= i < |t| ==> t[i] == w[i] || t[i] as int == w[i] as int - 32
  }

  // ---------------------------------------------------------------------
  // Properties

  /** `split()` finds no token exactly when the line is blank. */
  lemma {:induction false} SplitBlank(s: string)
    ensures Split(s) == [] <==> AllSpace(s)
  {
    if s != [] && IsSpace(s[0]) {
      SplitBlank(s[1..]);
    }
  }

  /** A token followed by whitespace (or by nothing) is split off whole. */
  lemma SplitToken(t: string, rest: string)
    requires IsToken(t)
    requires rest == [] || IsSpace(rest[0])
    ensures Split(t + rest) == [t] + Split(rest)
  {
    var s := t + rest;
    assert s[0] == t[0];
    assert forall i :: 0 <= i < |t| ==> s[i] == t[i];
    assert |t| < |s| ==> s[|t|] == rest[0];
    var n := WordRun(s);
    assert n == |t|;
    assert s[..n] == t;
    assert s[n..] == rest;
  }

  /** Leading whitespace, of any kind and length, is dropped by `split()`. */
  lemma {:induction false} SplitSkipsSpace(ws: string, s: string)
    requires AllSpace(ws)
    ensures Split(ws + s) == Split(s)
  {
    if ws == [] {
      assert ws + s == s;
    } else {
      assert (ws + s)[1..] == ws[1..] + s;
      SplitSkipsSpace(ws[1..], s);
    }
  }

  /** A token followed by any non-empty run of whitespace is split off whole,
      and the run counts as one separator. */
  lemma SplitTokenThenSpace(t: string, ws: string, s: string)
    requires IsToken(t) && AllSpace(ws) && ws != []
    ensures Split(t + ws + s) == [t] + Split(s)
  {
    assert t + ws + s == t + (ws + s);
    SplitToken(t, ws + s);
    SplitSkipsSpace(ws, s);
  }

  /** `split()` undoes `" ".join` of tokens: the tokenizer's round trip. */
  lemma {:induction false} SplitJoin(tokens: seq<string>)
    requires forall k :: 0 <= k < |tokens| ==> IsToken(tokens[k])
    ensures Split(Join(" ", tokens)) == tokens
  {
    if |tokens| == 1 {
      SplitToken(tokens[0], "");
      assert tokens[0] + "" == tokens[0];
    } else if |tokens| > 1 {
      var rest := Join(" ", tokens[1..]);
      assert Join(" ", tokens) == tokens[0] + (" " + rest);
      SplitToken(tokens[0], " " + rest);
      assert (" " + rest)[1..] == rest;
      SplitJoin(tokens[1..]);
      assert [tokens[0]] + tokens[1..] == tokens;
    }
  }

  /** Lower-casing a token gives the lower-case word `w` exactly when the
      token spells `w` up to case. */
  lemma LowerMatches(t: string, w: string)
    requires IsLowerWord(w)
    ensures Lower(t) == w <==> EqualsIgnoringCase(t, w)
  {
  }

  /** Joining non-empty parts is empty exactly when there are no parts. */
  lemma {:induction false} JoinEmpty(sep: string, parts: seq<string>)
    requires forall k :: 0 <= k < |parts| ==> parts[k] != []
    ensures Join(sep, parts) == [] <==> parts == []
  {
  }

  /** Appending one part to a non-empty join adds the separator and that part. */
  lemma {:induction false} JoinAppend(sep: string, parts: seq<string>, last: string)
    requires parts != []
    ensures Join(sep, parts + [last]) == Join(sep, parts) + sep + last
  {
    var ps := parts + [last];
    if |parts| > 1 {
      assert ps[1..] == parts[1..] + [last];
      JoinAppend(sep, parts[1..], last);
    }
  }

  /** `split(sep)` of a string without `sep`, followed by more text, keeps that
      string as the head of its first part. */
  lemma {:induction false} SplitOnPrefix(sep: char, a: string, b: string)
    requires forall i :: 0 <= i < |a| ==> a[i] != sep
    ensures SplitOn(sep, a + b) == [a + SplitOn(sep, b)[0]] + SplitOn(sep, b)[1..]
  {
    if a != [] {
      var ab := a + b;
      var p := SplitOn(sep, b);
      assert ab[0] == a[0] && ab[1..] == a[1..] + b;
      SplitOnPrefix(sep, a[1..], b);
      var r := SplitOn(sep, ab[1..]);
      assert r[0] == a[1..] + p[0] && r[1..] == p[1..];
      assert SplitOn(sep, ab) == [[a[0]] + r[0]] + r[1..];
      assert [a[0]] + (a[1..] + p[0]) == a + p[0];
    } else {
      var parts := SplitOn(sep, b);
      assert a + b == b;
      assert a + parts[0] == parts[0];
      assert [parts[0]] + parts[1..] == parts;
    }
  }

  /** `split(sep)` undoes `sep.join(parts)` when no part holds the separator. */
  lemma {:induction false} SplitOnJoin(sep: char, parts: seq<string>)
    requires parts != []
    requires forall k, i :: 0 <= k < |parts| && 0 <= i < |parts[k]| ==> parts[k][i] != sep
    ensures SplitOn(sep, Join([sep], parts)) == parts
  {
    if |parts| == 1 {
      SplitOnPrefix(sep, parts[0], "");
      assert parts[0] + "" == parts[0];
    } else {
      var rest := Join([sep], parts[1..]);
      assert Join([sep], parts) == parts[0] + ([sep] + rest);
      SplitOnPrefix(sep, parts[0], [sep] + rest);
      assert ([sep] + rest)[1..] == rest;
      SplitOnJoin(sep, parts[1..]);
      assert parts[0] + "" == parts[0];
      assert [parts[0]] + parts[1..] == parts;
    }
  }
}
