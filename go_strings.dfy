/** The parts of Go's `strings` package the resources rely on, each with a
    one-character cutset or separator: Trim, Join and Split. */
module GoStrings {

  /** Number of occurrences of `c` in `s` (strings.Count with a one-character separator). */
  function Count(s: string, c: char): (n: nat)
    ensures n == 0 <==> c !in s
    ensures n <= |s|
  {
    if s == [] then 0 else (if s[0] == c then 1 else 0) + Count(s[1..], c)
  }

  /** strings.TrimLeft(s, string(c)): drops every leading `c`; what is left
      does not start with `c`. */
  function TrimLeft(s: string, c: char): (r: string)
    ensures |r| <= |s|
    ensures r != [] ==> r[0] != c
  {
    if s != [] && s[0] == c then TrimLeft(s[1..], c) else s
  }

  /** strings.TrimRight(s, string(c)): drops every trailing `c`; what is
      left does not end with `c`. */
  function TrimRight(s: string, c: char): (r: string)
    ensures |r| <= |s|
    ensures r != [] ==> r[|r| - 1] != c
  {
    if s != [] && s[|s| - 1] == c then TrimRight(s[..|s| - 1], c) else s
  }

  /** strings.Trim(s, string(c)). */
  function Trim(s: string, c: char): string {
    TrimRight(TrimLeft(s, c), c)
  }

  /** TrimLeft keeps a suffix of `s` and drops `c`s only. */
  lemma {:induction false} TrimLeftDropsCutset(s: string, c: char)
    ensures TrimLeft(s, c) == s[|s| - |TrimLeft(s, c)|..]
    ensures forall k :: 0 <= k < |s| - |TrimLeft(s, c)| ==> s[k] == c
  {
    if s != [] && s[0] == c {
      TrimLeftDropsCutset(s[1..], c);
      assert s[1..][|s| - 1 - |TrimLeft(s, c)|..] == s[|s| - |TrimLeft(s, c)|..];
      assert forall k :: 1 <= k < |s| - |TrimLeft(s, c)| ==> s[k] == s[1..][k - 1];
    }
  }

  /** TrimRight keeps a prefix of `s` and drops `c`s only. */
  lemma {:induction false} TrimRightDropsCutset(s: string, c: char)
    ensures TrimRight(s, c) == s[..|TrimRight(s, c)|]
    ensures forall k :: |TrimRight(s, c)| <= k < |s| ==> s[k] == c
  {
    if s != [] && s[|s| - 1] == c {
      TrimRightDropsCutset(s[..|s| - 1], c);
      assert s[..|s| - 1][..|TrimRight(s, c)|] == s[..|TrimRight(s, c)|];
    }
  }

  /** A trimmed string neither starts nor ends with `c`. */
  lemma TrimEnds(s: string, c: char)
    ensures var r := Trim(s, c); r != [] ==> r[0] != c && r[|r| - 1] != c
  {
    var left := TrimLeft(s, c);
    TrimRightDropsCutset(left, c);
    assert Trim(s, c) != [] ==> Trim(s, c)[0] == left[0];
  }

  /** The trim of `s` is empty exactly when `s` consists of `c` only. */
  lemma TrimEmpty(s: string, c: char)
    ensures Trim(s, c) == [] <==> forall k :: 0 <= k < |s| ==> s[k] == c
  {
    var left := TrimLeft(s, c);
    var i := |s| - |left|;
    TrimLeftDropsCutset(s, c);
    TrimRightDropsCutset(left, c);
    assert forall k :: i <= k < |s| ==> s[k] == left[k - i];
  }

  /** A string that neither starts nor ends with `c` is its own trim. */
  lemma TrimUntouched(s: string, c: char)
    requires s != [] ==> s[0] != c && s[|s| - 1] != c
    ensures Trim(s, c) == s
  {
    assert TrimLeft(s, c) == s;
    assert TrimRight(s, c) == s;
  }

  /** strings.Join(parts, string(sep)). */
  function Join(parts: seq<string>, sep: char): string {
    if |parts| == 0 then ""
    else if |parts| == 1 then parts[0]
    else parts[0] + [sep] + Join(parts[1..], sep)
  }

  /** Joining non-empty parts gives a string that begins with the first
      part's first character and ends with the last part's last character. */
  lemma {:induction false} JoinEnds(parts: seq<string>, sep: char)
    requires |parts| > 0
    requires forall k :: 0 <= k < |parts| ==> parts[k] != []
    ensures var r := Join(parts, sep); var last := parts[|parts| - 1];
      r != [] && r[0] == parts[0][0] && r[|r| - 1] == last[|last| - 1]
  {
    if |parts| > 1 {
      var rest := parts[1..];
      assert forall k :: 0 <= k < |rest| ==> rest[k] == parts[k + 1];
      JoinEnds(rest, sep);
      assert rest[|rest| - 1] == parts[|parts| - 1];
    }
  }

  /** strings.Split(s, string(sep)): the pieces between occurrences of `sep`;
      there is always one more piece than there are separators. */
  function Split(s: string, sep: char): (parts: seq<string>)
    ensures |parts| == Count(s, sep) + 1
    ensures forall k :: 0 <= k < |parts| ==> sep !in parts[k]
  {
    if s == [] then [""]
    else
      var rest := Split(s[1..], sep);
      if s[0] == sep then [""] + rest
      else [[s[0]] + rest[0]] + rest[1..]
  }

  /** Prepending a separator-free string `a` glues it onto the first piece. */
  lemma {:induction false} SplitPrefix(a: string, t: string, sep: char)
    requires sep !in a
    ensures var p := Split(t, sep); Split(a + t, sep) == [a + p[0]] + p[1..]
  {
    if a != [] {
      var p := Split(t, sep);
      SplitPrefix(a[1..], t, sep);
      assert (a + t)[1..] == a[1..] + t;
      var r := Split(a[1..] + t, sep);
      assert r[0] == a[1..] + p[0] && r[1..] == p[1..];
      assert (a + t)[0] == a[0] && a[0] != sep;
      assert Split(a + t, sep) == [[a[0]] + r[0]] + r[1..];
      assert [a[0]] + a[1..] == a;
      ConsConcat(a[0], a[1..], p[0]);
    } else {
      var p := Split(t, sep);
      assert a + t == t;
      assert a + p[0] == p[0];
      assert p == [p[0]] + p[1..];
    }
  }

  lemma ConsConcat(x: char, u: string, v: string)
    ensures [x] + (u + v) == ([x] + u) + v
  {
  }

  /** Split undoes Join when no part contains the separator. */
  lemma {:induction false} SplitJoin(parts: seq<string>, sep: char)
    requires |parts| > 0
    requires forall k :: 0 <= k < |parts| ==> sep !in parts[k]
    ensures Split(Join(parts, sep), sep) == parts
  {
    var head := parts[0];
    if |parts| == 1 {
      SplitPrefix(head, "", sep);
      assert head + "" == head;
      assert Split("", sep) == [""];
    } else {
      var rest := parts[1..];
      assert forall k :: 0 <= k < |rest| ==> sep !in rest[k] by {
        forall k | 0 <= k < |rest| ensures sep !in rest[k] {
          assert rest[k] == parts[k + 1];
        }
      }
      var tail := Join(rest, sep);
      SplitJoin(rest, sep);
      var p := Split([sep] + tail, sep);
      assert ([sep] + tail)[1..] == tail;
      assert p == [""] + rest;
      SplitPrefix(head, [sep] + tail, sep);
      assert head + [sep] + tail == head + ([sep] + tail);
      assert Split(Join(parts, sep), sep) == [head + p[0]] + p[1..];
      assert head + p[0] == head;
      assert p[1..] == rest;
      assert parts == [head] + rest;
    }
  }

  /** Join undoes Split. */
  lemma {:induction false} JoinSplit(s: string, sep: char)
    ensures Join(Split(s, sep), sep) == s
  {
    if s != [] {
      var rest := Split(s[1..], sep);
      JoinSplit(s[1..], sep);
      if s[0] == sep {
        assert Join([""] + rest, sep) == "" + [sep] + Join(rest, sep);
      } else if |rest| == 1 {
        assert Split(s, sep) == [[s[0]] + rest[0]];
      } else {
        var parts := Split(s, sep);
        assert parts[1..] == rest[1..];
        assert Join(parts, sep) == [s[0]] + rest[0] + [sep] + Join(rest[1..], sep);
      }
    }
  }
}
