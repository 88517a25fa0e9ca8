/**
  The string primitives the bot relies on, written out as Python defines them:
  `str.isspace`, `str.strip()`, `str.split(sep)` with a one-character separator,
  `sep.join(parts)` and `filter(None, parts)` over a list of strings.
*/
module Text {

  /** Python's `str.isspace()` for one code point (the set `str.strip()` removes). */
  predicate IsWhitespace(c: char) {
    || ('\U{9}' <= c <= '\U{D}')     // tab, line feed, vertical tab, form feed, carriage return
    || ('\U{1C}' <= c <= '\U{1F}')   // file, group, record and unit separators
    || c == ' '
    || c == '\U{85}'                  // next line
    || c == '\U{A0}'                  // no-break space
    || c == '\U{1680}'                // ogham space mark
    || ('\U{2000}' <= c <= '\U{200A}') // en quad .. hair space
    || c == '\U{2028}' || c == '\U{2029}' // line and paragraph separators
    || c == '\U{202F}'                // narrow no-break space
    || c == '\U{205F}'                // medium mathematical space
    || c == '\U{3000}'                // ideographic space
  }

  /** Every character of `s` is whitespace (vacuously true of ""). */
  predicate AllWhitespace(s: string) {
    forall i :: 0 <= i < |s| ==> IsWhitespace(s[i])
  }

  /** `s` neither starts nor ends with whitespace. */
  predicate IsStripped(s: string) {
    s == [] || (!IsWhitespace(s[0]) && !IsWhitespace(s[|s| - 1]))
  }

  /** Python's `s.lstrip()`: the suffix of `s` left after removing leading whitespace. */
  function TrimLeft(s: string): (r: string)
    decreases |s|
  {
    if s != [] && IsWhitespace(s[0]) then TrimLeft(s[1..]) else s
  }

  /** Python's `s.rstrip()`: the prefix of `s` left after removing trailing whitespace. */
  function TrimRight(s: string): (r: string)
    decreases |s|
  {
    if s != [] && IsWhitespace(s[|s| - 1]) then TrimRight(s[..|s| - 1]) else s
  }

  /** Python's `s.strip()`. */
  function Strip(s: string): (r: string)
    ensures IsStripped(r)
    ensures r == [] <==> AllWhitespace(s)
  {
    StripShape(s);
    TrimRight(TrimLeft(s))
  }

  /** Python's `[p.strip() for p in parts]`. */
  function StripAll(parts: seq<string>): (r: seq<string>)
    ensures |r| == |parts|
    ensures forall i :: 0 <= i < |r| ==> r[i] == Strip(parts[i])
  {
    seq(|parts|, i requires 0 <= i < |parts| => Strip(parts[i]))
  }

  /** Number of occurrences of `c` in `s`. */
  function Occurrences(s: string, c: char): nat
    decreases |s|
  {
    if s == [] then 0 else (if s[0] == c then 1 else 0) + Occurrences(s[1..], c)
  }

  /** Python's `s.split(sep)` for a one-character separator: never empty, and no part holds `sep`. */
  function Split(s: string, sep: char): (parts: seq<string>)
    ensures |parts| == Occurrences(s, sep) + 1
    ensures forall i :: 0 <= i < |parts| ==> sep !in parts[i]
    decreases |s|
  {
    if s == [] then [""]
    else if s[0] == sep then [""] + Split(s[1..], sep)
    else
      var rest := Split(s[1..], sep);
      [[s[0]] + rest[0]] + rest[1..]
  }

  /** Python's `sep.join(parts)`. */
  function Join(parts: seq<string>, sep: string): string
    decreases |parts|
  {
    if parts == [] then ""
    else if |parts| == 1 then parts[0]
    else parts[0] + sep + Join(parts[1..], sep)
  }

  /** Python's `list(filter(None, parts))`: the non-empty parts, in their order. */
  function DropEmpty(parts: seq<string>): (r: seq<string>)
    ensures |r| <= |parts|
    ensures forall i :: 0 <= i < |r| ==> r[i] != ""
    ensures forall x :: x in r <==> x in parts && x != ""
    decreases |parts|
  {
    if parts == [] then []
    else if parts[0] == "" then DropEmpty(parts[1..])
    else [parts[0]] + DropEmpty(parts[1..])
  }

  // ----- strip -----

  lemma AllWhitespaceAppend(a: string, b: string)
    requires AllWhitespace(a) && AllWhitespace(b)
    ensures AllWhitespace(a + b)
  {
    forall i | 0 <= i < |a + b|
      ensures IsWhitespace((a + b)[i])
    {
      if i >= |a| {
        assert (a + b)[i] == b[i - |a|];
      }
    }
  }

  /** `TrimLeft` removes a run of whitespace and stops at the first other character. */
  lemma {:induction false} TrimLeftSplits(s: string) returns (left: string)
    ensures s == left + TrimLeft(s) && AllWhitespace(left)
    ensures TrimLeft(s) == [] || !IsWhitespace(TrimLeft(s)[0])
    decreases |s|
  {
    if s != [] && IsWhitespace(s[0]) {
      var rest := TrimLeftSplits(s[1..]);
      left := [s[0]] + rest;
      assert s == [s[0]] + s[1..];
    } else {
      left := [];
    }
  }

  /** `TrimRight` removes a run of whitespace and stops at the last other character. */
  lemma {:induction false} TrimRightSplits(s: string) returns (right: string)
    ensures s == TrimRight(s) + right && AllWhitespace(right)
    ensures TrimRight(s) == [] || !IsWhitespace(TrimRight(s)[|TrimRight(s)| - 1])
    decreases |s|
  {
    if s != [] && IsWhitespace(s[|s| - 1]) {
      var rest := TrimRightSplits(s[..|s| - 1]);
      right := rest + [s[|s| - 1]];
      assert s == s[..|s| - 1] + [s[|s| - 1]];
    } else {
      right := [];
    }
  }

  lemma {:induction false} TrimLeftSkips(pad: string, s: string)
    requires AllWhitespace(pad)
    ensures TrimLeft(pad + s) == TrimLeft(s)
    decreases |pad|
  {
    if pad != [] {
      assert (pad + s)[0] == pad[0] && (pad + s)[1..] == pad[1..] + s;
      assert AllWhitespace(pad[1..]);
      TrimLeftSkips(pad[1..], s);
    } else {
      assert pad + s == s;
    }
  }

  lemma {:induction false} TrimRightSkips(s: string, pad: string)
    requires AllWhitespace(pad)
    ensures TrimRight(s + pad) == TrimRight(s)
    decreases |pad|
  {
    if pad != [] {
      var p := pad[..|pad| - 1];
      assert (s + pad)[|s + pad| - 1] == pad[|pad| - 1];
      assert (s + pad)[..|s + pad| - 1] == s + p;
      assert AllWhitespace(p);
      TrimRightSkips(s, p);
    } else {
      assert s + pad == s;
    }
  }

  /** The facts behind `Strip`'s contract. */
  lemma StripShape(s: string)
    ensures IsStripped(TrimRight(TrimLeft(s)))
    ensures TrimRight(TrimLeft(s)) == [] <==> AllWhitespace(s)
  {
    var l := TrimLeft(s);
    var r := TrimRight(l);
    var left := TrimLeftSplits(s);
    var right := TrimRightSplits(l);
    if r != [] {
      assert r[0] == l[0];
    } else {
      assert s == left + right;
      AllWhitespaceAppend(left, right);
    }
    if AllWhitespace(s) {
      TrimLeftSkips(s, []);
      assert s + [] == s;
    }
  }

  /**
    Reference characterisation of `Strip`: whatever whitespace surrounds a
    stripped string `m`, stripping returns exactly `m`.
  */
  lemma StripPadded(left: string, m: string, right: string)
    requires AllWhitespace(left) && AllWhitespace(right) && IsStripped(m)
    ensures Strip(left + m + right) == m
  {
    assert left + m + right == left + (m + right);
    TrimLeftSkips(left, m + right);
    if m == [] {
      assert m + right == right + [];
      TrimLeftSkips(right, []);
    } else {
      assert (m + right)[0] == m[0];
      assert TrimLeft(m + right) == m + right;
      TrimRightSkips(m, right);
      assert TrimRight(m) == m;
    }
  }

  /** `Strip` leaves a stripped string alone, and only a stripped one. */
  lemma StripFixedPoint(s: string)
    ensures Strip(s) == s <==> IsStripped(s)
  {
    if IsStripped(s) {
      StripPadded("", s, "");
      assert "" + s + "" == s;
    }
  }

  /** Stripping twice is stripping once. */
  lemma StripIdempotent(s: string)
    ensures Strip(Strip(s)) == Strip(s)
  {
    StripFixedPoint(Strip(s));
  }

  /** Every string is its stripped form between two runs of whitespace. */
  lemma StripSplits(s: string) returns (left: string, right: string)
    ensures s == left + Strip(s) + right
    ensures AllWhitespace(left) && AllWhitespace(right)
  {
    left := TrimLeftSplits(s);
    right := TrimRightSplits(TrimLeft(s));
  }

  /** Whitespace added before a string does not change its stripped form. */
  lemma StripAfterPad(pad: string, s: string)
    requires AllWhitespace(pad)
    ensures Strip(pad + s) == Strip(s)
  {
    TrimLeftSkips(pad, s);
  }

  /** Whitespace added after a string does not change its stripped form. */
  lemma StripBeforePad(s: string, pad: string)
    requires AllWhitespace(pad)
    ensures Strip(s + pad) == Strip(s)
  {
    var left, right := StripSplits(s);
    var m := Strip(s);
    AllWhitespaceAppend(right, pad);
    assert s + pad == left + m + (right + pad);
    StripPadded(left, m, right + pad);
  }

  // ----- occurrences -----

  lemma {:induction false} OccurrencesAppend(a: string, b: string, c: char)
    ensures Occurrences(a + b, c) == Occurrences(a, c) + Occurrences(b, c)
    decreases |a|
  {
    if a != [] {
      assert (a + b)[0] == a[0] && (a + b)[1..] == a[1..] + b;
      OccurrencesAppend(a[1..], b, c);
    } else {
      assert a + b == b;
    }
  }

  lemma {:induction false} OccurrencesAbsent(s: string, c: char)
    requires c !in s
    ensures Occurrences(s, c) == 0
    decreases |s|
  {
    if s != [] {
      OccurrencesAbsent(s[1..], c);
    }
  }

  /** Stripping never removes a character that is not whitespace, so it keeps every `c` that is not. */
  lemma StripKeepsOccurrences(s: string, c: char)
    requires !IsWhitespace(c)
    ensures Occurrences(Strip(s), c) == Occurrences(s, c)
    ensures c in Strip(s) <==> c in s
  {
    var a, b := StripSplits(s);
    var r := Strip(s);
    assert c !in a && c !in b;
    OccurrencesAbsent(a, c);
    OccurrencesAbsent(b, c);
    OccurrencesAppend(a + r, b, c);
    OccurrencesAppend(a, r, c);
  }

  // ----- split and join -----

  lemma {:induction false} SplitWithout(s: string, sep: char)
    requires sep !in s
    ensures Split(s, sep) == [s]
    decreases |s|
  {
    if s != [] {
      SplitWithout(s[1..], sep);
      assert [s[0]] + s[1..] == s;
    }
  }

  /** Splitting `p + sep + t` where `p` holds no separator yields `p` first and then the parts of `t`. */
  lemma {:induction false} SplitAfter(p: string, sep: char, t: string)
    requires sep !in p
    ensures Split(p + [sep] + t, sep) == [p] + Split(t, sep)
    decreases |p|
  {
    if p == [] {
      assert p + [sep] + t == [sep] + t;
      assert ([sep] + t)[1..] == t;
    } else {
      var s := p + [sep] + t;
      assert s[1..] == p[1..] + [sep] + t;
      SplitAfter(p[1..], sep, t);
      assert [s[0]] + p[1..] == p;
    }
  }

  /** A separator-free prefix joins the first part of the split. */
  lemma {:induction false} SplitPrepend(pad: string, s: string, sep: char)
    requires sep !in pad
    ensures Split(pad + s, sep) == [pad + Split(s, sep)[0]] + Split(s, sep)[1..]
    decreases |pad|
  {
    var parts := Split(s, sep);
    if pad == [] {
      assert pad + s == s && pad + parts[0] == parts[0];
    } else {
      var t := pad + s;
      assert t[0] == pad[0] && t[1..] == pad[1..] + s;
      SplitPrepend(pad[1..], s, sep);
      assert [pad[0]] + (pad[1..] + parts[0]) == pad + parts[0];
    }
  }

  /** A separator-free suffix joins the last part of the split. */
  lemma {:induction false} SplitAppend(s: string, pad: string, sep: char)
    requires sep !in pad
    ensures var parts := Split(s, sep);
      Split(s + pad, sep) == parts[..|parts| - 1] + [parts[|parts| - 1] + pad]
    decreases |s|
  {
    var parts := Split(s, sep);
    if s == [] {
      SplitWithout(pad, sep);
      assert s + pad == pad;
    } else {
      var t := s + pad;
      assert t[0] == s[0] && t[1..] == s[1..] + pad;
      SplitAppend(s[1..], pad, sep);
      var rest := Split(s[1..], sep);
      var n := |rest|;
      if s[0] == sep {
        assert parts == [""] + rest;
        assert parts[..|parts| - 1] == [""] + rest[..n - 1];
      } else if n == 1 {
        assert parts == [[s[0]] + rest[0]];
        assert Split(s[1..] + pad, sep) == [rest[0] + pad];
        assert [s[0]] + (rest[0] + pad) == ([s[0]] + rest[0]) + pad;
      } else {
        assert parts == [[s[0]] + rest[0]] + rest[1..];
        assert parts[..|parts| - 1] == [[s[0]] + rest[0]] + rest[1..n - 1];
      }
    }
  }

  /**
    Padding a string with whitespace (that holds no separator) keeps the
    number of parts and the stripped form of each part.
  */
  lemma SplitPadded(left: string, m: string, right: string, sep: char)
    requires AllWhitespace(left) && AllWhitespace(right)
    requires sep !in left && sep !in right
    ensures StripAll(Split(left + m + right, sep)) == StripAll(Split(m, sep))
  {
    var inner := Split(m, sep);
    var n := |inner|;
    SplitAppend(m, right, sep);
    var mid := Split(m + right, sep);
    assert mid == inner[..n - 1] + [inner[n - 1] + right];
    assert left + m + right == left + (m + right);
    SplitPrepend(left, m + right, sep);
    var outer := Split(left + m + right, sep);
    assert outer == [left + mid[0]] + mid[1..];
    assert |outer| == n;
    forall i | 0 <= i < n
      ensures Strip(outer[i]) == Strip(inner[i])
    {
      if i == 0 && n == 1 {
        assert outer[0] == left + (inner[0] + right);
        StripAfterPad(left, inner[0] + right);
        StripBeforePad(inner[0], right);
      } else if i == 0 {
        assert outer[0] == left + inner[0];
        StripAfterPad(left, inner[0]);
      } else if i == n - 1 {
        assert outer[i] == inner[i] + right;
        StripBeforePad(inner[i], right);
      } else {
        assert outer[i] == inner[i];
      }
    }
  }

  lemma JoinCons(head: string, rest: seq<string>, sep: string)
    requires rest != []
    ensures Join([head] + rest, sep) == head + sep + Join(rest, sep)
  {
    assert ([head] + rest)[1..] == rest;
  }

  lemma {:induction false} JoinSnoc(parts: seq<string>, last: string, sep: string)
    requires parts != []
    ensures Join(parts + [last], sep) == Join(parts, sep) + sep + last
    decreases |parts|
  {
    if |parts| == 1 {
      assert parts + [last] == [parts[0]] + [last];
    } else {
      assert (parts + [last])[1..] == parts[1..] + [last];
      JoinSnoc(parts[1..], last, sep);
    }
  }

  /** Splitting the `sep`-join of separator-free parts gives back the parts. */
  lemma {:induction false} SplitJoin(parts: seq<string>, sep: char)
    requires parts != []
    requires forall i :: 0 <= i < |parts| ==> sep !in parts[i]
    ensures Split(Join(parts, [sep]), sep) == parts
    decreases |parts|
  {
    if |parts| == 1 {
      SplitWithout(parts[0], sep);
    } else {
      SplitAfter(parts[0], sep, Join(parts[1..], [sep]));
      SplitJoin(parts[1..], sep);
      assert parts == [parts[0]] + parts[1..];
    }
  }

  /** Joining the parts of a split with the separator gives back the string. */
  lemma {:induction false} JoinSplit(s: string, sep: char)
    ensures Join(Split(s, sep), [sep]) == s
    decreases |s|
  {
    if s != [] {
      var rest := Split(s[1..], sep);
      JoinSplit(s[1..], sep);
      if s[0] == sep {
        JoinCons("", rest, [sep]);
      } else if |rest| == 1 {
        assert Split(s, sep) == [[s[0]] + rest[0]];
      } else {
        JoinCons([s[0]] + rest[0], rest[1..], [sep]);
        assert rest == [rest[0]] + rest[1..];
        JoinCons(rest[0], rest[1..], [sep]);
      }
    }
  }

  lemma StripAllAppend(a: seq<string>, b: seq<string>)
    ensures StripAll(a + b) == StripAll(a) + StripAll(b)
  {
    assert forall i :: 0 <= i < |a + b| ==> StripAll(a + b)[i] == (StripAll(a) + StripAll(b))[i];
  }

  /**
    Splitting a `", "`-join on commas and stripping the parts gives back the
    joined strings when none holds a comma or is surrounded by whitespace.
  */
  lemma {:induction false} SplitJoinSpaced(parts: seq<string>)
    requires parts != []
    requires forall i :: 0 <= i < |parts| ==> ',' !in parts[i] && IsStripped(parts[i])
    ensures StripAll(Split(Join(parts, ", "), ',')) == parts
    decreases |parts|
  {
    var head := parts[0];
    StripFixedPoint(head);
    if |parts| == 1 {
      SplitWithout(head, ',');
    } else {
      var rest := parts[1..];
      var joined := Join(rest, ", ");
      assert Join(parts, ", ") == head + [','] + (" " + joined) by {
        assert Join(parts, ", ") == head + ", " + joined;
      }
      SplitAfter(head, ',', " " + joined);
      SplitPrepend(" ", joined, ',');
      var tail := Split(joined, ',');
      var spaced := [" " + tail[0]] + tail[1..];
      assert AllWhitespace(" ");
      StripAfterPad(" ", tail[0]);
      assert StripAll(spaced) == StripAll(tail) by {
        assert forall i :: 0 <= i < |tail| ==> StripAll(spaced)[i] == StripAll(tail)[i];
      }
      StripAllAppend([head], spaced);
      SplitJoinSpaced(rest);
      assert parts == [head] + rest;
    }
  }

  // ----- filtering -----

  /** Filtering distributes over concatenation: order is kept and duplicates survive. */
  lemma {:induction false} DropEmptyAppend(a: seq<string>, b: seq<string>)
    ensures DropEmpty(a + b) == DropEmpty(a) + DropEmpty(b)
    decreases |a|
  {
    if a != [] {
      assert (a + b)[0] == a[0] && (a + b)[1..] == a[1..] + b;
      DropEmptyAppend(a[1..], b);
    } else {
      assert a + b == b;
    }
  }

  /** Filtering leaves nothing exactly when every part is empty. */
  lemma {:induction false} DropEmptyNothing(parts: seq<string>)
    ensures DropEmpty(parts) == [] <==> forall i :: 0 <= i < |parts| ==> parts[i] == ""
    decreases |parts|
  {
    if parts != [] {
      DropEmptyNothing(parts[1..]);
      assert forall i :: 1 <= i < |parts| ==> parts[i] == parts[1..][i - 1];
    }
  }

  /** A list with no empty element survives filtering untouched. */
  lemma {:induction false} DropEmptyKeeps(parts: seq<string>)
    requires forall i :: 0 <= i < |parts| ==> parts[i] != ""
    ensures DropEmpty(parts) == parts
    decreases |parts|
  {
    if parts != [] {
      DropEmptyKeeps(parts[1..]);
    }
  }
}
