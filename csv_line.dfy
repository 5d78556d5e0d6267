/**
 * ParseCSVLine of application/main.go: split a line on commas; a line of more
 * than five fields keeps the first five and folds the rest back together,
 * commas included, into one trimmed sixth field.
 *
 * Go's strings.Split, strings.Join and strings.TrimSpace are modelled over
 * sequences of characters with a one-character separator.
 */
module CsvLine {

  /** strings.Split with a one-character separator: the pieces between separators, empty ones included. */
  function Split(s: string, sep: char): (r: seq<string>)
    ensures |r| >= 1
    ensures forall k :: 0 <= k < |r| ==> sep !in r[k]
  {
    if |s| == 0 then [""]
    else
      var rest := Split(s[1..], sep);
      if s[0] == sep then [""] + rest else [[s[0]] + rest[0]] + rest[1..]
  }

  /** strings.Join: the pieces with the separator between consecutive ones. */
  function Join(parts: seq<string>, sep: char): string
  {
    if |parts| == 0 then ""
    else if |parts| == 1 then parts[0]
    else parts[0] + [sep] + Join(parts[1..], sep)
  }

  /** Splitting and joining back on the same separator gives the line back. */
  lemma {:induction false} JoinSplit(s: string, sep: char)
    ensures Join(Split(s, sep), sep) == s
  {
    if |s| > 0 {
      var rest := Split(s[1..], sep);
      JoinSplit(s[1..], sep);
      if s[0] == sep {
        assert Split(s, sep) == [""] + rest;
        assert ([""] + rest)[1..] == rest;
      } else {
        var r := [[s[0]] + rest[0]] + rest[1..];
        if |rest| == 1 {
          assert Join(r, sep) == [s[0]] + rest[0];
        } else {
          assert r[1..] == rest[1..];
          assert Join(rest, sep) == rest[0] + [sep] + Join(rest[1..], sep);
        }
        assert s == [s[0]] + s[1..];
      }
    }
  }

  /** Joining separator-free pieces and splitting again gives the same pieces. */
  lemma {:induction false} SplitJoin(parts: seq<string>, sep: char)
    requires |parts| >= 1
    requires forall k :: 0 <= k < |parts| ==> sep !in parts[k]
    ensures Split(Join(parts, sep), sep) == parts
  {
    if |parts| == 1 {
      SplitNoSeparator(parts[0], sep);
    } else {
      SplitJoin(parts[1..], sep);
      SplitPrefix(parts[0], Join(parts[1..], sep), sep);
      assert [parts[0]] + parts[1..] == parts;
    }
  }

  /** A separator-free string is a single piece. */
  lemma {:induction false} SplitNoSeparator(s: string, sep: char)
    requires sep !in s
    ensures Split(s, sep) == [s]
  {
    if |s| > 0 {
      assert sep !in s[1..] by {
        forall k | 0 <= k < |s[1..]| ensures s[1..][k] != sep { assert s[1..][k] == s[k + 1]; }
      }
      SplitNoSeparator(s[1..], sep);
      assert s == [s[0]] + s[1..];
    }
  }

  /** A separator-free piece followed by the separator starts a new piece. */
  lemma {:induction false} SplitPrefix(p: string, rest: string, sep: char)
    requires sep !in p
    ensures Split(p + [sep] + rest, sep) == [p] + Split(rest, sep)
  {
    if |p| == 0 {
      assert p + [sep] + rest == [sep] + rest;
      assert ([sep] + rest)[1..] == rest;
    } else {
      var s := p + [sep] + rest;
      assert s[1..] == p[1..] + [sep] + rest;
      assert sep !in p[1..] by {
        forall k | 0 <= k < |p[1..]| ensures p[1..][k] != sep { assert p[1..][k] == p[k + 1]; }
      }
      SplitPrefix(p[1..], rest, sep);
      assert [p[0]] + p[1..] == p;
    }
  }

  /** Joining splits at any boundary: the two halves with one separator between them. */
  lemma {:induction false} JoinAt(parts: seq<string>, m: int, sep: char)
    requires 0 < m < |parts|
    ensures Join(parts, sep) == Join(parts[..m], sep) + [sep] + Join(parts[m..], sep)
  {
    if m > 1 {
      JoinAt(parts[1..], m - 1, sep);
      assert parts[1..][..m - 1] == parts[..m][1..];
      assert parts[1..][m - 1..] == parts[m..];
    }
  }

  /** The characters with the Unicode White_Space property, which unicode.IsSpace accepts. */
  const WhiteSpace: set<char> := {
    '\t', '\n', '\U{000B}', '\U{000C}', '\r', ' ', '\U{0085}', '\U{00A0}', '\U{1680}',
    '\U{2000}', '\U{2001}', '\U{2002}', '\U{2003}', '\U{2004}', '\U{2005}', '\U{2006}',
    '\U{2007}', '\U{2008}', '\U{2009}', '\U{200A}',
    '\U{2028}', '\U{2029}', '\U{202F}', '\U{205F}', '\U{3000}'
  }

  predicate IsSpace(c: char)
  {
    c in WhiteSpace
  }

  /** The number of white-space characters `s` starts with. */
  function LeadingSpace(s: string): (n: nat)
    ensures n <= |s|
    ensures forall i :: 0 <= i < n ==> IsSpace(s[i])
    ensures n < |s| ==> !IsSpace(s[n])
  {
    if |s| > 0 && IsSpace(s[0]) then 1 + LeadingSpace(s[1..]) else 0
  }

  /** The length of `s` once its trailing white space is dropped. */
  function SpaceFreeEnd(s: string): (m: nat)
    ensures m <= |s|
    ensures forall i :: m <= i < |s| ==> IsSpace(s[i])
    ensures m > 0 ==> !IsSpace(s[m - 1])
  {
    if |s| > 0 && IsSpace(s[|s| - 1]) then SpaceFreeEnd(s[..|s| - 1]) else |s|
  }

  /** strings.TrimSpace: the input without leading and trailing white space. */
  function TrimSpace(s: string): (r: string)
    ensures |r| <= |s|
    ensures |r| == 0 || (!IsSpace(r[0]) && !IsSpace(r[|r| - 1]))
  {
    var start := LeadingSpace(s);
    if start == |s| then "" else s[start..SpaceFreeEnd(s)]
  }

  /** What TrimSpace keeps is a slice of the input, and all it cuts off, on either side, is white space. */
  lemma TrimSpaceCuts(s: string)
    ensures var r, a := TrimSpace(s), LeadingSpace(s);
      && a + |r| <= |s| && r == s[a..a + |r|]
      && (forall i :: 0 <= i < a ==> IsSpace(s[i]))
      && (forall i :: a + |r| <= i < |s| ==> IsSpace(s[i]))
  {
  }

  /** Trimming twice trims nothing more. */
  lemma TrimSpaceIdempotent(s: string)
    ensures TrimSpace(TrimSpace(s)) == TrimSpace(s)
  {
    var t := TrimSpace(s);
    if |t| > 0 {
      assert LeadingSpace(t) == 0;
      assert SpaceFreeEnd(t) == |t|;
    }
  }

  /** ParseCSVLine. */
  function ParseCSVLine(line: string): (r: seq<string>)
    ensures 1 <= |r| <= 6
  {
    var parts := Split(line, ',');
    if |parts| <= 5 then parts
    else parts[..5] + [TrimSpace(Join(parts[5..], ','))]
  }

  /** Up to five fields: the comma-separated fields themselves, which join back into the line. */
  lemma ShortLine(line: string)
    requires |Split(line, ',')| <= 5
    ensures ParseCSVLine(line) == Split(line, ',')
    ensures Join(ParseCSVLine(line), ',') == line
    ensures forall k :: 0 <= k < |ParseCSVLine(line)| ==> ',' !in ParseCSVLine(line)[k]
  {
    JoinSplit(line, ',');
  }

  /**
   * More than five fields: six fields, the first five as split, and the sixth
   * the trimmed text after the fifth comma, commas kept.
   */
  lemma LongLine(line: string)
    requires |Split(line, ',')| > 5
    ensures |ParseCSVLine(line)| == 6
    ensures ParseCSVLine(line)[..5] == Split(line, ',')[..5]
    ensures exists k ::
      && 0 <= k < |line| && line[k] == ','
      && Join(ParseCSVLine(line)[..5], ',') == line[..k]
      && ParseCSVLine(line)[5] == TrimSpace(line[k + 1..])
  {
    var parts := Split(line, ',');
    var r := ParseCSVLine(line);
    assert r[..5] == parts[..5];
    JoinSplit(line, ',');
    JoinAt(parts, 5, ',');
    var k := |Join(parts[..5], ',')|;
    assert line == Join(parts[..5], ',') + [','] + Join(parts[5..], ',');
    assert line[..k] == Join(parts[..5], ',');
    assert line[k] == ',';
    assert line[k + 1..] == Join(parts[5..], ',');
  }
}
