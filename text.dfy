/** String helpers shared by the Python backend and the JavaScript front ends:
    ASCII lower-casing (Python's str.lower), splitting on one character
    (Python's rsplit and JavaScript's String.prototype.split), joining with a
    separator (Python's str.join) and ECMAScript's String.prototype.trim. */
module Text {

  /** Python's str.lower on one character, restricted to the ASCII letters. */
  function LowerChar(c: char): (r: char)
    ensures !('A' <= r <= 'Z')
    ensures !('A' <= c <= 'Z') ==> r == c
    ensures 'A' <= c <= 'Z' ==> r as int == c as int + 32
  {
    if 'A' <= c <= 'Z' then (c as int + 32) as char else c
  }

  /** Python's str.lower, restricted to the ASCII letters. */
  function Lower(s: string): (r: string)
    ensures |r| == |s|
    ensures forall i :: 0 <= i < |s| ==> r[i] == LowerChar(s[i])
  {
    seq(|s|, i requires 0 <= i < |s| => LowerChar(s[i]))
  }

  /** Lower-casing twice is lower-casing once, so a lower-cased lookup key is
      stable under a second lower(). */
  lemma LowerIdempotent(s: string)
    ensures Lower(Lower(s)) == Lower(s)
  {
    assert forall i :: 0 <= i < |s| ==> Lower(Lower(s))[i] == Lower(s)[i];
  }

  /** Index of the last occurrence of c in s, or -1 when there is none. */
  function LastIndexOf(s: string, c: char): (r: int)
    ensures -1 <= r < |s|
    ensures r == -1 <==> c !in s
    ensures 0 <= r ==> s[r] == c && c !in s[r + 1..]
  {
    if |s| == 0 then -1
    else if s[|s| - 1] == c then |s| - 1
    else
      var r := LastIndexOf(s[..|s| - 1], c);
      assert s[..|s| - 1] + [s[|s| - 1]] == s;
      assert 0 <= r ==> s[r + 1..] == s[..|s| - 1][r + 1..] + [s[|s| - 1]];
      r
  }

  /** Splitting on one separator character: the pieces between the
      separators, so there is always one more piece than there are
      separators, and no piece contains the separator. */
  function Split(s: string, sep: char): (parts: seq<string>)
    ensures |parts| >= 1
    ensures forall i :: 0 <= i < |parts| ==> sep !in parts[i]
    decreases |s|
  {
    if |s| == 0 then [""]
    else
      var rest := Split(s[1..], sep);
      if s[0] == sep then [""] + rest
      else [[s[0]] + rest[0]] + rest[1..]
  }

  /** A split has one more piece than the text has separators. */
  lemma {:induction false} SplitCount(s: string, sep: char)
    ensures |Split(s, sep)| == multiset(s)[sep] + 1
    decreases |s|
  {
    if |s| > 0 {
      SplitCount(s[1..], sep);
      assert s == [s[0]] + s[1..];
      assert multiset(s) == multiset{s[0]} + multiset(s[1..]);
    }
  }

  /** Python's sep.join(parts): the parts in order with the separator
      between neighbours. */
  function Join(parts: seq<string>, sep: string): string
    decreases |parts|
  {
    if |parts| == 0 then ""
    else if |parts| == 1 then parts[0]
    else parts[0] + sep + Join(parts[1..], sep)
  }

  /** Joining one more part appends the separator and that part. */
  lemma {:induction false} JoinSnoc(parts: seq<string>, last: string, sep: string)
    requires |parts| >= 1
    ensures Join(parts + [last], sep) == Join(parts, sep) + sep + last
    decreases |parts|
  {
    if |parts| > 1 {
      assert (parts + [last])[1..] == parts[1..] + [last];
      JoinSnoc(parts[1..], last, sep);
    }
  }

  /** The total length of some strings. */
  function TotalLength(parts: seq<string>): nat
    decreases |parts|
  {
    if |parts| == 0 then 0 else |parts[0]| + TotalLength(parts[1..])
  }

  /** A join is as long as its parts plus one separator between each two
      neighbours. */
  lemma {:induction false} JoinLength(parts: seq<string>, sep: string)
    requires |parts| >= 1
    ensures |Join(parts, sep)| == TotalLength(parts) + (|parts| - 1) * |sep|
    decreases |parts|
  {
    if |parts| > 1 {
      JoinLength(parts[1..], sep);
    }
  }

  /** Python's `a in t` on two strings: a occurs in t as a contiguous piece;
      the empty string occurs in every string. */
  function Occurs(a: string, t: string): bool
    decreases |t|
  {
    if a <= t then true
    else if |t| == 0 then false
    else Occurs(a, t[1..])
  }

  /** The slice of t starting at i is a. */
  predicate PieceAt(a: string, t: string, i: int)
  {
    0 <= i && i + |a| <= |t| && t[i..i + |a|] == a
  }

  /** A slice of the tail is the slice one place later in the text. */
  lemma SliceOfTail(t: string, i: nat, m: nat)
    requires i + 1 + m <= |t|
    ensures t[i + 1..i + 1 + m] == t[1..][i..i + m]
  {
    var u, w := t[i + 1..i + 1 + m], t[1..][i..i + m];
    forall k | 0 <= k < m ensures u[k] == w[k] {
      assert w[k] == t[i + 1 + k];
    }
    assert u == w;
  }

  /** `a in t` holds exactly when some slice of t equals a. */
  lemma {:induction false} OccursAt(a: string, t: string)
    ensures Occurs(a, t) <==> exists i :: PieceAt(a, t, i)
    decreases |t|
  {
    if a <= t {
      assert PieceAt(a, t, 0);
    } else if |t| == 0 {
      assert a != [];
    } else {
      var u := t[1..];
      OccursAt(a, u);
      if Occurs(a, u) {
        var i :| PieceAt(a, u, i);
        SliceOfTail(t, i, |a|);
        assert PieceAt(a, t, i + 1);
      }
      if exists i :: PieceAt(a, t, i) {
        var i :| PieceAt(a, t, i);
        assert i != 0;
        SliceOfTail(t, i - 1, |a|);
        assert PieceAt(a, u, i - 1);
      }
    }
  }

  /** Joining the pieces of a split with the separator gives back the text. */
  lemma {:induction false} JoinSplit(s: string, sep: char)
    ensures Join(Split(s, sep), [sep]) == s
    decreases |s|
  {
    if |s| > 0 {
      var rest := Split(s[1..], sep);
      var parts := Split(s, sep);
      JoinSplit(s[1..], sep);
      assert Join(rest, [sep]) == s[1..];
      if s[0] == sep {
        assert parts == [""] + rest && parts[1..] == rest;
        assert Join(parts, [sep]) == "" + [sep] + Join(rest, [sep]);
      } else {
        assert parts == [[s[0]] + rest[0]] + rest[1..];
        if |rest| == 1 {
          assert Join(parts, [sep]) == [s[0]] + rest[0];
        } else {
          assert parts[1..] == rest[1..];
          assert Join(rest, [sep]) == rest[0] + [sep] + Join(rest[1..], [sep]);
          assert Join(parts, [sep]) == [s[0]] + rest[0] + [sep] + Join(rest[1..], [sep]);
        }
      }
    }
  }

  /** A piece free of the separator, then the separator, then anything. */
  lemma {:induction false} SplitAfterPiece(x: string, sep: char, rest: string)
    requires sep !in x
    ensures Split(x + [sep] + rest, sep) == [x] + Split(rest, sep)
    decreases |x|
  {
    if |x| == 0 {
      assert x + [sep] + rest == [sep] + rest;
      assert ([sep] + rest)[1..] == rest;
    } else {
      SplitAfterPiece(x[1..], sep, rest);
      assert (x + [sep] + rest)[1..] == x[1..] + [sep] + rest;
      assert [x[0]] + x[1..] == x;
    }
  }

  /** Text free of the separator is one piece. */
  lemma {:induction false} SplitNoSeparator(x: string, sep: char)
    requires sep !in x
    ensures Split(x, sep) == [x]
    decreases |x|
  {
    if |x| > 0 {
      SplitNoSeparator(x[1..], sep);
      assert [x[0]] + x[1..] == x;
    }
  }

  /** Splitting the join of separator-free pieces gives back the pieces. */
  lemma {:induction false} SplitJoin(parts: seq<string>, sep: char)
    requires |parts| >= 1
    requires forall i :: 0 <= i < |parts| ==> sep !in parts[i]
    ensures Split(Join(parts, [sep]), sep) == parts
    decreases |parts|
  {
    if |parts| == 1 {
      SplitNoSeparator(parts[0], sep);
    } else {
      SplitJoin(parts[1..], sep);
      SplitAfterPiece(parts[0], sep, Join(parts[1..], [sep]));
      assert [parts[0]] + parts[1..] == parts;
    }
  }

  /** Index of the first occurrence of c in s, or -1 when there is none. */
  function IndexOf(s: string, c: char): (i: int)
    ensures -1 <= i < |s|
    ensures i == -1 <==> c !in s
    ensures 0 <= i ==> s[i] == c && c !in s[..i]
  {
    if |s| == 0 then -1
    else if s[0] == c then 0
    else
      var i := IndexOf(s[1..], c);
      assert s == [s[0]] + s[1..];
      assert 0 <= i ==> s[..i + 1] == [s[0]] + s[1..][..i];
      if i < 0 then -1 else i + 1
  }

  /** JavaScript's s.replace(c, ''), which removes the first occurrence of c
      only: the text before it and the text after it. */
  function RemoveFirst(s: string, c: char): (r: string)
    ensures c !in s ==> r == s
    ensures c in s ==> |r| == |s| - 1 && multiset(r) == multiset(s) - multiset{c}
  {
    var i := IndexOf(s, c);
    if i < 0 then s
    else
      assert s == s[..i] + [c] + s[i + 1..];
      s[..i] + s[i + 1..]
  }

  /** The first occurrence of c is the one after a piece without c. */
  lemma RemoveFirstAfterPiece(x: string, c: char, y: string)
    requires c !in x
    ensures RemoveFirst(x + [c] + y, c) == x + y
  {
    var s := x + [c] + y;
    var i := IndexOf(s, c);
    assert s[|x|] == c;
    assert i == |x|;
    assert s[..i] == x && s[i + 1..] == y;
  }

  /** ECMAScript's WhiteSpace and LineTerminator characters, which is what
      String.prototype.trim removes. */
  const WhiteSpace: set<char> := {
    '\t', '\n', '\U{000B}', '\U{000C}', '\r', ' ', '\U{00A0}', '\U{1680}',
    '\U{2000}', '\U{2001}', '\U{2002}', '\U{2003}', '\U{2004}', '\U{2005}',
    '\U{2006}', '\U{2007}', '\U{2008}', '\U{2009}', '\U{200A}',
    '\U{2028}', '\U{2029}', '\U{202F}', '\U{205F}', '\U{3000}', '\U{FEFF}'
  }

  predicate IsSpace(c: char)
  {
    c in WhiteSpace
  }

  /** Neither starts nor ends with white space. */
  predicate Trimmed(s: string)
  {
    s == [] || (!IsSpace(s[0]) && !IsSpace(s[|s| - 1]))
  }

  /** The number of white-space characters the text starts with. */
  function LeadingSpace(s: string): (n: nat)
    ensures n <= |s|
    ensures forall k :: 0 <= k < n ==> IsSpace(s[k])
    ensures n == |s| || !IsSpace(s[n])
    decreases |s|
  {
    if |s| > 0 && IsSpace(s[0]) then 1 + LeadingSpace(s[1..]) else 0
  }

  /** Where the white space the text ends with begins. */
  function TrailingSpace(s: string): (n: nat)
    ensures n <= |s|
    ensures forall k :: n <= k < |s| ==> IsSpace(s[k])
    ensures n == 0 || !IsSpace(s[n - 1])
    decreases |s|
  {
    if |s| > 0 && IsSpace(s[|s| - 1]) then TrailingSpace(s[..|s| - 1]) else |s|
  }

  /** Drops the leading white space: what is left is a suffix of the text,
      everything before it is white space, and it does not start with any. */
  function TrimStart(s: string): (r: string)
    ensures |r| <= |s| && r == s[|s| - |r|..]
    ensures forall k :: 0 <= k < |s| - |r| ==> IsSpace(s[k])
    ensures r == [] || !IsSpace(r[0])
  {
    s[LeadingSpace(s)..]
  }

  /** Drops the trailing white space: what is left is a prefix of the text,
      everything after it is white space, and it does not end with any. */
  function TrimEnd(s: string): (r: string)
    ensures |r| <= |s| && r == s[..|r|]
    ensures forall k :: |r| <= k < |s| ==> IsSpace(s[k])
    ensures r == [] || !IsSpace(r[|r| - 1])
  {
    s[..TrailingSpace(s)]
  }

  /** ECMAScript's String.prototype.trim: the text between the leading and
      the trailing white space. */
  function Trim(s: string): (r: string)
    ensures Trimmed(r)
  {
    var t := TrimStart(s);
    var r := TrimEnd(t);
    assert r != [] ==> r[0] == t[0];
    r
  }

  /** A trim removes white space only: the result is a slice of the text
      with nothing but white space before and after it. */
  lemma TrimRemovesOnlySpace(s: string)
    ensures var i, r := |s| - |TrimStart(s)|, Trim(s);
      && i + |r| <= |s| && r == s[i..i + |r|]
      && (forall k :: 0 <= k < i ==> IsSpace(s[k]))
      && (forall k :: i + |r| <= k < |s| ==> IsSpace(s[k]))
  {
    var t := TrimStart(s);
    var r := TrimEnd(t);
    var i := |s| - |t|;
    assert Trim(s) == r;
    assert forall k :: 0 <= k < i ==> IsSpace(s[k]);
    TrimBothEnds(s, t, r);
    assert i + |r| <= |s|;
  }

  /** A prefix of a suffix, stated on plain slices. */
  lemma TrimBothEnds(s: string, t: string, r: string)
    requires |t| <= |s| && t == s[|s| - |t|..]
    requires |r| <= |t| && r == t[..|r|]
    requires forall k :: |r| <= k < |t| ==> IsSpace(t[k])
    ensures var i := |s| - |t|;
      && r == s[i..i + |r|]
      && (forall k :: i + |r| <= k < |s| ==> IsSpace(s[k]))
  {
    var i := |s| - |t|;
    forall k | i + |r| <= k < |s| ensures IsSpace(s[k]) {
      assert s[k] == t[k - i];
    }
  }

  /** Text that is already trimmed is left alone. */
  lemma TrimOfTrimmed(s: string)
    requires Trimmed(s)
    ensures Trim(s) == s
  {
  }

  /** Leading white space never survives a trim. */
  lemma TrimAfterSpace(c: char, s: string)
    requires IsSpace(c)
    ensures Trim([c] + s) == Trim(s)
  {
    assert ([c] + s)[1..] == s;
  }

  /** JavaScript's s.split(sep).map(item => item.trim()). */
  function SplitTrimmed(s: string, sep: char): (items: seq<string>)
    ensures |items| == |Split(s, sep)| == multiset(s)[sep] + 1
    ensures forall i :: 0 <= i < |items| ==> sep !in items[i] && Trimmed(items[i])
    ensures forall i :: 0 <= i < |items| ==> items[i] == Trim(Split(s, sep)[i])
  {
    var parts := Split(s, sep);
    SplitCount(s, sep);
    seq(|parts|, i requires 0 <= i < |parts| => Trim(parts[i]))
  }

  /** A list joined with ", " (as the backend renders lists) and split on ','
      with trimming (as the admin form reads lists) comes back unchanged,
      provided its items hold no comma and are already trimmed. */
  lemma {:induction false} SplitTrimmedJoin(items: seq<string>)
    requires |items| >= 1
    requires forall i :: 0 <= i < |items| ==> ',' !in items[i] && Trimmed(items[i])
    ensures SplitTrimmed(Join(items, ", "), ',') == items
  {
    var padded := Padded(items);
    JoinPadded(items, padded);
    SplitJoin(padded, ',');
    var text := Join(items, ", ");
    assert Split(text, ',') == padded;
    TrimAllPadded(items);
    var result := SplitTrimmed(text, ',');
    assert forall i :: 0 <= i < |items| ==> result[i] == items[i];
  }

  /** Trimming every padded item gives back the items. */
  lemma TrimAllPadded(items: seq<string>)
    requires |items| >= 1
    requires forall i :: 0 <= i < |items| ==> ',' !in items[i] && Trimmed(items[i])
    ensures forall i :: 0 <= i < |items| ==> Trim(Padded(items)[i]) == items[i]
  {
    forall i | 0 <= i < |items| ensures Trim(Padded(items)[i]) == items[i] {
      TrimPadded(items[i], i == 0);
    }
  }

  /** The items after the first, prefixed by a space. */
  function Padded(items: seq<string>): (padded: seq<string>)
    requires |items| >= 1
    requires forall i :: 0 <= i < |items| ==> ',' !in items[i]
    ensures |padded| == |items| && padded[0] == items[0]
    ensures forall i :: 0 < i < |items| ==> padded[i] == " " + items[i]
    ensures forall i :: 0 <= i < |padded| ==> ',' !in padded[i]
  {
    seq(|items|, i requires 0 <= i < |items| => if i == 0 then items[0] else " " + items[i])
  }

  lemma TrimPadded(item: string, first: bool)
    requires Trimmed(item)
    ensures Trim(if first then item else " " + item) == item
  {
    TrimOfTrimmed(item);
    if !first {
      assert " " + item == [' '] + item;
      TrimAfterSpace(' ', item);
    }
  }

  /** Joining with ", " is joining, with ",", the items after the first
      prefixed by a space. */
  lemma {:induction false} JoinPadded(items: seq<string>, padded: seq<string>)
    requires |items| >= 1 && |padded| == |items| && padded[0] == items[0]
    requires forall i :: 0 < i < |items| ==> padded[i] == " " + items[i]
    ensures Join(items, ", ") == Join(padded, ",")
    decreases |items|
  {
    if |items| > 1 {
      var tail := [" " + items[1]] + padded[2..];
      JoinPadded(items[1..], [items[1]] + padded[2..]);
      JoinShiftSpace(items[1..], [items[1]] + padded[2..]);
      assert padded[1..] == tail;
    }
  }

  /** Prefixing the first item by a space prefixes the joined text by a space. */
  lemma JoinShiftSpace(items: seq<string>, rest: seq<string>)
    requires |items| >= 1 && |rest| == |items| && rest[0] == items[0]
    requires Join(items, ", ") == Join(rest, ",")
    ensures " " + Join(items, ", ") == Join([" " + items[0]] + rest[1..], ",")
  {
    var shifted := [" " + items[0]] + rest[1..];
    assert shifted[1..] == rest[1..];
  }
}
