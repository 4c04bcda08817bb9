/**
 * String and sequence primitives with the semantics of the JavaScript and
 * Python library calls the dashboard and the logger rely on:
 * `String.prototype.split` with a one-character separator, `Array.join`,
 * `String.prototype.trim` and `Array.prototype.reverse`.
 */
module Text {

  /** `s.reverse()`: element i of the result is element |s|-1-i of the input. */
  function Reverse<T>(s: seq<T>): (r: seq<T>)
    ensures |r| == |s|
    ensures forall i :: 0 <= i < |s| ==> r[i] == s[|s| - 1 - i]
  {
    if s == [] then [] else Reverse(s[1..]) + [s[0]]
  }

  /** Number of occurrences of `c` in `s`. */
  function Count(s: string, c: char): nat
  {
    if s == [] then 0 else (if s[0] == c then 1 else 0) + Count(s[1..], c)
  }

  /** Position of the first occurrence of `c` in `s`. */
  function IndexOf(s: string, c: char): (k: nat)
    requires c in s
    ensures k < |s| && s[k] == c
    ensures forall j :: 0 <= j < k ==> s[j] != c
  {
    if s[0] == c then 0 else 1 + IndexOf(s[1..], c)
  }

  /** `parts.join(sep)`: the parts with one separator between neighbours. */
  function Join(parts: seq<string>, sep: char): string
  {
    if |parts| == 0 then ""
    else if |parts| == 1 then parts[0]
    else parts[0] + [sep] + Join(parts[1..], sep)
  }

  /**
   * `s.split(sep)` for a one-character separator: never empty (the empty
   * string splits into one empty piece), one more piece than separators,
   * no piece holds the separator, and joining the pieces gives `s` back.
   */
  function Split(s: string, sep: char): (parts: seq<string>)
    ensures |parts| == Count(s, sep) + 1
    ensures forall i :: 0 <= i < |parts| ==> sep !in parts[i]
    ensures Join(parts, sep) == s
    decreases |s|
  {
    if sep in s then
      var k := IndexOf(s, sep);
      CountSplitsAt(s, sep, k);
      assert s == s[..k] + [sep] + s[k + 1..];
      [s[..k]] + Split(s[k + 1..], sep)
    else
      CountAbsent(s, sep);
      [s]
  }

  lemma {:induction false} CountAbsent(s: string, c: char)
    requires c !in s
    ensures Count(s, c) == 0
  {
    if s != [] {
      assert c !in s[1..] by {
        forall x | x in s[1..] ensures x != c {
          assert x in s;
        }
      }
      CountAbsent(s[1..], c);
    }
  }

  lemma {:induction false} CountConcat(a: string, b: string, c: char)
    ensures Count(a + b, c) == Count(a, c) + Count(b, c)
  {
    if a == [] {
      assert a + b == b;
    } else {
      assert (a + b)[1..] == a[1..] + b;
      CountConcat(a[1..], b, c);
    }
  }

  lemma {:induction false} CountSplitsAt(s: string, c: char, k: nat)
    requires k < |s| && s[k] == c
    requires forall j :: 0 <= j < k ==> s[j] != c
    ensures Count(s, c) == 1 + Count(s[k + 1..], c)
  {
    assert s == s[..k] + ([c] + s[k + 1..]);
    CountConcat(s[..k], [c] + s[k + 1..], c);
    CountAbsent(s[..k], c);
    assert ([c] + s[k + 1..])[1..] == s[k + 1..];
  }

  /** Splitting undoes joining when no part holds the separator. */
  lemma {:induction false} SplitJoin(parts: seq<string>, sep: char)
    requires |parts| > 0
    requires forall i :: 0 <= i < |parts| ==> sep !in parts[i]
    ensures Split(Join(parts, sep), sep) == parts
  {
    if |parts| == 1 {
      assert Join(parts, sep) == parts[0];
    } else {
      var rest := parts[1..];
      JoinCons(parts[0], rest, sep);
      assert [parts[0]] + rest == parts;
      SplitAtFirst(Join(parts, sep), parts[0], Join(rest, sep), sep);
      SplitJoin(rest, sep);
    }
  }

  /** A text that starts with a separator-free piece and a separator splits into that piece and the split of the rest. */
  lemma {:induction false} SplitAtFirst(s: string, p: string, rest: string, sep: char)
    requires s == p + [sep] + rest && sep !in p
    ensures Split(s, sep) == [p] + Split(rest, sep)
  {
    assert s[|p|] == sep;
    forall j | 0 <= j < |p| ensures s[j] != sep {
      assert s[j] == p[j];
    }
    assert IndexOf(s, sep) == |p|;
    assert s[..|p|] == p;
    assert s[|p| + 1..] == rest;
  }

  /** Joining after extending the last part extends the joined text. */
  lemma {:induction false} JoinExtendLast(parts: seq<string>, sep: char, tail: string)
    requires |parts| > 0
    ensures Join(parts[..|parts| - 1] + [parts[|parts| - 1] + tail], sep) == Join(parts, sep) + tail
  {
    var ext := parts[..|parts| - 1] + [parts[|parts| - 1] + tail];
    if |parts| > 1 {
      var rest := parts[1..];
      var restExt := rest[..|rest| - 1] + [rest[|rest| - 1] + tail];
      assert ext == [parts[0]] + restExt;
      JoinExtendLast(rest, sep, tail);
      JoinCons(parts[0], restExt, sep);
      JoinCons(parts[0], rest, sep);
      assert [parts[0]] + rest == parts;
    } else {
      assert ext == [parts[0] + tail];
    }
  }

  lemma {:induction false} JoinCons(first: string, rest: seq<string>, sep: char)
    requires |rest| > 0
    ensures Join([first] + rest, sep) == first + [sep] + Join(rest, sep)
  {
    assert ([first] + rest)[1..] == rest;
  }

  /** Joining with one more part appends a separator and that part. */
  lemma {:induction false} JoinSnoc(parts: seq<string>, last: string, sep: char)
    requires |parts| > 0
    ensures Join(parts + [last], sep) == Join(parts, sep) + [sep] + last
  {
    if |parts| == 1 {
      assert parts + [last] == [parts[0]] + [last];
      JoinCons(parts[0], [last], sep);
    } else {
      assert parts + [last] == [parts[0]] + (parts[1..] + [last]);
      JoinCons(parts[0], parts[1..] + [last], sep);
      JoinSnoc(parts[1..], last, sep);
      JoinCons(parts[0], parts[1..], sep);
      assert [parts[0]] + parts[1..] == parts;
    }
  }

  /** The first part starts the joined text; the last part ends it. */
  lemma {:induction false} JoinEnds(parts: seq<string>, sep: char)
    requires |parts| > 0
    ensures parts[0] <= Join(parts, sep)
    ensures |parts[|parts| - 1]| <= |Join(parts, sep)|
    ensures Join(parts, sep)[|Join(parts, sep)| - |parts[|parts| - 1]|..] == parts[|parts| - 1]
  {
    if |parts| > 1 {
      JoinEnds(parts[1..], sep);
      var rest := Join(parts[1..], sep);
      assert Join(parts, sep) == parts[0] + [sep] + rest;
      assert Join(parts, sep)[|Join(parts, sep)| - |rest|..] == rest;
    }
  }

  /** The characters `String.prototype.trim` removes: ECMAScript WhiteSpace and LineTerminator. */
  predicate IsJsWhitespace(c: char)
  {
    || c == '\t' || c == '\n' || c == '\U{B}' || c == '\U{C}' || c == '\r' || c == ' '
    || c == '\U{A0}' || c == '\U{1680}' || ('\U{2000}' <= c <= '\U{200A}')
    || c == '\U{2028}' || c == '\U{2029}' || c == '\U{202F}' || c == '\U{205F}'
    || c == '\U{3000}' || c == '\U{FEFF}'
  }

  /** `s.trimStart()`: the longest suffix of `s` that does not start with whitespace. */
  function TrimStart(s: string): (r: string)
    ensures |r| <= |s| && r == s[|s| - |r|..]
    ensures forall i :: 0 <= i < |s| - |r| ==> IsJsWhitespace(s[i])
    ensures r == [] || !IsJsWhitespace(r[0])
  {
    if s != [] && IsJsWhitespace(s[0]) then TrimStart(s[1..]) else s
  }

  /** `s.trimEnd()`: the longest prefix of `s` that does not end with whitespace. */
  function TrimEnd(s: string): (r: string)
    ensures |r| <= |s| && r == s[..|r|]
    ensures forall i :: |r| <= i < |s| ==> IsJsWhitespace(s[i])
    ensures r == [] || !IsJsWhitespace(r[|r| - 1])
  {
    if s != [] && IsJsWhitespace(s[|s| - 1]) then TrimEnd(s[..|s| - 1]) else s
  }

  /**
   * `s.trim()`: a piece of `s` that is empty exactly when `s` is all
   * whitespace and otherwise starts and ends with non-whitespace
   * (`TrimExact` shows it is the whole text between the two whitespace runs).
   */
  function Trim(s: string): (r: string)
    ensures |r| <= |s|
    ensures r == [] || (!IsJsWhitespace(r[0]) && !IsJsWhitespace(r[|r| - 1]))
    ensures r == [] <==> AllWhitespace(s)
  {
    var t := TrimStart(s);
    var r := TrimEnd(t);
    assert r != [] ==> r[0] == t[0];
    assert r == [] ==> t == [];
    r
  }

  predicate AllWhitespace(s: string)
  {
    forall i :: 0 <= i < |s| ==> IsJsWhitespace(s[i])
  }

  /** `trimStart` removes exactly a leading run of whitespace that is followed by non-whitespace or nothing. */
  lemma {:induction false} TrimStartExact(a: string, y: string)
    requires AllWhitespace(a)
    requires y == [] || !IsJsWhitespace(y[0])
    ensures TrimStart(a + y) == y
  {
    var s := a + y;
    var r := TrimStart(s);
    assert forall i :: 0 <= i < |a| ==> IsJsWhitespace(s[i]);
    assert y != [] ==> !IsJsWhitespace(s[|a|]);
    assert |r| == |y|;
    assert r == s[|a|..] == y;
  }

  /** `trimEnd` removes exactly a trailing run of whitespace that follows non-whitespace or nothing. */
  lemma {:induction false} TrimEndExact(x: string, b: string)
    requires AllWhitespace(b)
    requires x == [] || !IsJsWhitespace(x[|x| - 1])
    ensures TrimEnd(x + b) == x
  {
    var s := x + b;
    var r := TrimEnd(s);
    assert forall i :: |x| <= i < |s| ==> IsJsWhitespace(s[i]);
    assert x != [] ==> !IsJsWhitespace(s[|x| - 1]);
    assert |r| == |x|;
    assert r == s[..|x|] == x;
  }

  /** `trim` keeps exactly the text between leading and trailing whitespace. */
  lemma {:induction false} TrimExact(a: string, x: string, b: string)
    requires AllWhitespace(a) && AllWhitespace(b)
    requires x == [] || (!IsJsWhitespace(x[0]) && !IsJsWhitespace(x[|x| - 1]))
    ensures Trim(a + x + b) == x
  {
    if x == [] {
      assert a + x + b == a + b;
      TrimStartExact(a + b, []);
      assert a + b + [] == a + b;
      assert TrimEnd([]) == [];
    } else {
      assert (x + b)[0] == x[0];
      TrimStartExact(a, x + b);
      assert a + x + b == a + (x + b);
      TrimEndExact(x, b);
    }
  }

  lemma {:induction false} WhitespaceConcat(b: string, w: string)
    requires AllWhitespace(b) && AllWhitespace(w)
    ensures AllWhitespace(b + w)
  {
    assert forall i :: 0 <= i < |b| ==> (b + w)[i] == b[i];
    assert forall i :: |b| <= i < |b + w| ==> (b + w)[i] == w[i - |b|];
  }

  /** `trimStart` removes a whitespace prefix. */
  lemma {:induction false} TrimStartSplits(s: string)
    ensures s == s[..|s| - |TrimStart(s)|] + TrimStart(s)
    ensures AllWhitespace(s[..|s| - |TrimStart(s)|])
  {
  }

  /** `trimEnd` removes a whitespace suffix. */
  lemma {:induction false} TrimEndSplits(s: string)
    ensures s == TrimEnd(s) + s[|TrimEnd(s)|..]
    ensures AllWhitespace(s[|TrimEnd(s)|..])
  {
  }

  lemma {:induction false} ConcatAssoc(a: string, x: string, b: string, w: string)
    ensures a + (x + b) + w == a + x + (b + w)
  {
  }

  /** Whitespace appended to a text does not change what `trim` returns. */
  lemma {:induction false} TrimIgnoresTrailingWhitespace(text: string, w: string)
    requires AllWhitespace(w)
    ensures Trim(text + w) == Trim(text)
  {
    var t := TrimStart(text);
    var x := TrimEnd(t);
    TrimStartSplits(text);
    TrimEndSplits(t);
    TrimmedEnds(t);
    assert text == text[..|text| - |t|] + (x + t[|x|..]);
    TrimWithTrailing(text, text[..|text| - |t|], x, t[|x|..], w);
  }

  /** Trimming the end of a text that starts with non-whitespace leaves non-whitespace at both ends. */
  lemma {:induction false} TrimmedEnds(t: string)
    requires t == [] || !IsJsWhitespace(t[0])
    ensures var x := TrimEnd(t); x == [] || (!IsJsWhitespace(x[0]) && !IsJsWhitespace(x[|x| - 1]))
  {
    var x := TrimEnd(t);
    if x != [] {
      assert x[0] == t[0];
    }
  }

  /** A text split as whitespace, core, whitespace trims to the core, with or without more whitespace after it. */
  lemma {:induction false} TrimWithTrailing(text: string, a: string, x: string, b: string, w: string)
    requires text == a + (x + b)
    requires AllWhitespace(a) && AllWhitespace(b) && AllWhitespace(w)
    requires x == [] || (!IsJsWhitespace(x[0]) && !IsJsWhitespace(x[|x| - 1]))
    ensures Trim(text + w) == x
  {
    WhitespaceConcat(b, w);
    ConcatAssoc(a, x, b, w);
    TrimExact(a, x, b + w);
  }
}
