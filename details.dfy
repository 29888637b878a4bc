/** The text rules of extractPlaceDetails (main.go:380-398): a result line is split on the
    middle dot; the address is its last piece, the opening hours its first piece when the line
    has more than one. Lines are sequences of characters and '·' is one character. */
module Details {

  /** The separator Google Maps shows between the parts of a result line (U+00B7). */
  const Separator: char := '·'

  /** strings.Split with a one-character separator: the pieces between separators, in order.
      A line without a separator is one piece; the empty line is one empty piece. */
  function Split(s: string, sep: char): (parts: seq<string>)
    ensures |parts| >= 1
    ensures forall k :: 0 <= k < |parts| ==> sep !in parts[k]
    ensures |parts| > 1 <==> sep in s
  {
    if s == [] then [[]]
    else
      var rest := Split(s[1..], sep);
      assert sep in s <==> s[0] == sep || sep in s[1..] by {
        assert s == [s[0]] + s[1..];
      }
      if s[0] == sep then [[]] + rest
      else [[s[0]] + rest[0]] + rest[1..]
  }

  /** strings.Join: the pieces with one separator between neighbours. */
  function Join(parts: seq<string>, sep: char): (s: string)
    requires |parts| >= 1
  {
    if |parts| == 1 then parts[0] else parts[0] + [sep] + Join(parts[1..], sep)
  }

  /** Prefixing the first piece prefixes the joined line. */
  lemma JoinExtendFirst(x: string, parts: seq<string>, sep: char)
    requires |parts| >= 1
    ensures Join([x + parts[0]] + parts[1..], sep) == x + Join(parts, sep)
  {
    var extended := [x + parts[0]] + parts[1..];
    if |parts| > 1 {
      assert extended[1..] == parts[1..];
    }
  }

  /** Joining the pieces of a split gives back the line. */
  lemma {:induction false} JoinSplit(s: string, sep: char)
    ensures Join(Split(s, sep), sep) == s
  {
    if s != [] {
      var rest := Split(s[1..], sep);
      JoinSplit(s[1..], sep);
      if s[0] == sep {
        assert ([[]] + rest)[1..] == rest;
      } else {
        JoinExtendFirst([s[0]], rest, sep);
      }
      assert s == [s[0]] + s[1..];
    }
  }

  /** Splitting a line that starts with a separator-free prefix extends the first piece. */
  lemma {:induction false} SplitPrefix(a: string, b: string, sep: char)
    requires sep !in a
    ensures Split(a + b, sep) == [a + Split(b, sep)[0]] + Split(b, sep)[1..]
  {
    var sb := Split(b, sep);
    if a == [] {
      assert a + b == b && a + sb[0] == sb[0];
      assert sb == [sb[0]] + sb[1..];
    } else {
      assert a[0] != sep by {
        assert a[0] in a;
      }
      assert (a + b)[0] == a[0] && (a + b)[1..] == a[1..] + b;
      SplitPrefix(a[1..], b, sep);
      var rest := Split(a[1..] + b, sep);
      assert rest == [a[1..] + sb[0]] + sb[1..];
      assert Split(a + b, sep) == [[a[0]] + rest[0]] + rest[1..];
      assert [a[0]] + (a[1..] + sb[0]) == a + sb[0];
    }
  }

  /** Splitting the join of separator-free pieces gives back the pieces. */
  lemma {:induction false} SplitJoin(parts: seq<string>, sep: char)
    requires |parts| >= 1
    requires forall k :: 0 <= k < |parts| ==> sep !in parts[k]
    ensures Split(Join(parts, sep), sep) == parts
  {
    if |parts| == 1 {
      SplitPrefix(parts[0], [], sep);
      assert parts[0] + [] == parts[0];
    } else {
      var tail := [sep] + Join(parts[1..], sep);
      assert parts[0] + [sep] + Join(parts[1..], sep) == parts[0] + tail;
      assert forall k :: 0 <= k < |parts| - 1 ==> parts[1..][k] == parts[k + 1];
      SplitJoin(parts[1..], sep);
      SplitPrefix(parts[0], tail, sep);
      assert tail[0] == sep && tail[1..] == Join(parts[1..], sep);
      assert Split(tail, sep) == [[]] + parts[1..];
      assert parts[0] + Split(tail, sep)[0] == parts[0];
      assert parts == [parts[0]] + parts[1..];
    }
  }

  /** The last piece of a split is the text after the last separator. */
  lemma {:induction false} LastPiece(s: string, sep: char)
    ensures var last := Split(s, sep)[|Split(s, sep)| - 1];
      |last| <= |s| && s[|s| - |last|..] == last &&
      (|last| < |s| ==> s[|s| - |last| - 1] == sep)
  {
    if s != [] {
      LastPiece(s[1..], sep);
      var rest := Split(s[1..], sep);
      if s[0] != sep && |rest| == 1 {
        JoinSplit(s[1..], sep);
      }
    }
  }

  /** The first piece of a split is the text before the first separator. */
  lemma {:induction false} FirstPiece(s: string, sep: char)
    ensures var first := Split(s, sep)[0];
      |first| <= |s| && s[..|first|] == first &&
      (|first| < |s| ==> s[|first|] == sep)
  {
    if s != [] {
      FirstPiece(s[1..], sep);
    }
  }

  /** The address taken from a result line: everything after the last separator, or the whole
      line when there is none. Nothing is trimmed. */
  function AddressFromLine(line: string): (address: string)
    ensures Separator !in address
    ensures |address| <= |line| && line[|line| - |address|..] == address
    ensures |address| < |line| ==> line[|line| - |address| - 1] == Separator
  {
    LastPiece(line, Separator);
    var parts := Split(line, Separator);
    parts[|parts| - 1]
  }

  /** The opening hours taken from a result line: everything before the first separator when
      the line has one, and empty otherwise. */
  function HoursFromLine(line: string): (hours: string)
    ensures Separator !in hours
    ensures Separator in line ==> |hours| < |line| && line[..|hours|] == hours && line[|hours|] == Separator
    ensures Separator !in line ==> hours == []
  {
    FirstPiece(line, Separator);
    var parts := Split(line, Separator);
    if |parts| > 1 then parts[0] else []
  }
}
