/** Python string operations the services are written in: str.split, str.join, str.strip, "in". */
module Text {

  datatype Option<+T> = None | Some(value: T)

  /** Characters str.strip() and str.split() treat as white space. */
  predicate IsSpace(c: char) {
    var n := c as int;
    || 9 <= n <= 13 || 28 <= n <= 32 || n == 0x85 || n == 0xA0 || n == 0x1680
    || 0x2000 <= n <= 0x200A || n == 0x2028 || n == 0x2029 || n == 0x202F || n == 0x205F || n == 0x3000
  }

  /** Characters str.splitlines() breaks at; every one of them is white space. */
  predicate IsLineBreak(c: char) {
    var n := c as int;
    10 <= n <= 13 || 28 <= n <= 30 || n == 0x85 || n == 0x2028 || n == 0x2029
  }

  /** s.split(sep): k separators give k + 1 pieces. */
  function Split(s: string, sep: char): (pieces: seq<string>)
    ensures |pieces| >= 1
  {
    if s == "" then [""]
    else
      var rest := Split(s[1..], sep);
      if s[0] == sep then [""] + rest else [[s[0]] + rest[0]] + rest[1..]
  }

  /** sep.join(parts) */
  function Join(parts: seq<string>, sep: string): string {
    if |parts| == 0 then ""
    else if |parts| == 1 then parts[0]
    else parts[0] + sep + Join(parts[1..], sep)
  }

  function StripLeft(s: string): (r: string)
    ensures r != "" ==> !IsSpace(r[0])
  {
    if s != "" && IsSpace(s[0]) then StripLeft(s[1..]) else s
  }

  function StripRight(s: string): (r: string)
    ensures r <= s
    ensures r != "" ==> !IsSpace(r[|r| - 1])
  {
    if s != "" && IsSpace(s[|s| - 1]) then StripRight(s[..|s| - 1]) else s
  }

  /** s.strip() */
  function Strip(s: string): string { StripRight(StripLeft(s)) }

  /** Neither end is white space, so strip() leaves the text alone. */
  predicate Stripped(s: string) {
    s != "" ==> !IsSpace(s[0]) && !IsSpace(s[|s| - 1])
  }

  /** needle in s */
  predicate Occurs(needle: string, s: string) {
    exists i :: 0 <= i <= |s| - |needle| && OccursAt(needle, s, i)
  }

  predicate OccursAt(needle: string, s: string, i: int) {
    0 <= i <= |s| - |needle| && s[i..i + |needle|] == needle
  }

  // ---- strip ----

  lemma StripFixed(s: string)
    requires Stripped(s)
    ensures Strip(s) == s
  {
  }

  lemma StripStrips(s: string)
    ensures Stripped(Strip(s))
    ensures Strip(Strip(s)) == Strip(s)
  {
  }

  lemma StripLeftStep(s: string)
    requires s != "" && IsSpace(s[0])
    ensures StripLeft(s) == StripLeft(s[1..])
  {
  }

  lemma StripRightStep(s: string)
    requires s != "" && IsSpace(s[|s| - 1])
    ensures StripRight(s) == StripRight(s[..|s| - 1])
  {
  }

  lemma {:induction false} StripLeftSpaces(before: string, s: string)
    requires forall c :: c in before ==> IsSpace(c)
    ensures StripLeft(before + s) == StripLeft(s)
  {
    if before == "" {
      assert before + s == s;
    } else {
      var all := before + s;
      StripLeftSpaces(before[1..], s);
      assert before[0] in before && all[0] == before[0];
      assert all[1..] == before[1..] + s;
      StripLeftStep(all);
    }
  }

  lemma {:induction false} StripRightSpaces(s: string, after: string)
    requires forall c :: c in after ==> IsSpace(c)
    ensures StripRight(s + after) == StripRight(s)
  {
    if after == "" {
      assert s + after == s;
    } else {
      var all := s + after;
      StripRightSpaces(s, after[..|after| - 1]);
      assert after[|after| - 1] in after && all[|all| - 1] == after[|after| - 1];
      assert all[..|all| - 1] == s + after[..|after| - 1];
      StripRightStep(all);
    }
  }

  /** Padding around a stripped text is all strip() takes away. */
  lemma StripPadded(before: string, s: string, after: string)
    requires Stripped(s)
    requires forall c :: c in before ==> IsSpace(c)
    requires forall c :: c in after ==> IsSpace(c)
    ensures Strip(before + s + after) == s
  {
    assert before + s + after == before + (s + after);
    StripLeftSpaces(before, s + after);
    if s == "" {
      StripLeftSpaces(after, "");
      assert s + after == after + "" == after;
    } else {
      StripRightSpaces(s, after);
    }
  }

  // ---- split and join ----

  lemma {:induction false} SplitNone(s: string, sep: char)
    requires sep !in s
    ensures Split(s, sep) == [s]
  {
    if s != "" {
      SplitNone(s[1..], sep);
      assert [s[0]] + s[1..] == s;
    }
  }

  lemma {:induction false} SplitCons(a: string, b: string, sep: char)
    requires sep !in a
    ensures Split(a + [sep] + b, sep) == [a] + Split(b, sep)
  {
    var s := a + [sep] + b;
    if a == "" {
      assert s[1..] == b;
    } else {
      SplitCons(a[1..], b, sep);
      assert s[1..] == a[1..] + [sep] + b;
      assert [a[0]] + a[1..] == a;
    }
  }

  /** Splitting a joined list gives the list back. */
  lemma {:induction false} SplitJoin(parts: seq<string>, sep: char)
    requires |parts| >= 1
    requires forall p :: p in parts ==> sep !in p
    ensures Split(Join(parts, [sep]), sep) == parts
  {
    if |parts| == 1 {
      SplitNone(parts[0], sep);
    } else {
      SplitJoin(parts[1..], sep);
      SplitCons(parts[0], Join(parts[1..], [sep]), sep);
      assert [parts[0]] + parts[1..] == parts;
    }
  }

  lemma {:induction false} SplitHasNoSep(s: string, sep: char)
    ensures forall p :: p in Split(s, sep) ==> sep !in p
  {
    if s != "" {
      SplitHasNoSep(s[1..], sep);
      var rest := Split(s[1..], sep);
      assert rest[0] in rest;
    }
  }

  lemma {:induction false} SplitFirstIsPrefix(s: string, sep: char)
    ensures Split(s, sep)[0] <= s
  {
    if s != "" {
      SplitFirstIsPrefix(s[1..], sep);
    }
  }

  lemma OccursLater(needle: string, s: string)
    requires s != "" && Occurs(needle, s[1..])
    ensures Occurs(needle, s)
  {
    var i :| 0 <= i <= |s[1..]| - |needle| && OccursAt(needle, s[1..], i);
    var found := s[i + 1..i + 1 + |needle|];
    forall k | 0 <= k < |needle|
      ensures found[k] == needle[k]
    {
      assert s[1..][i..i + |needle|][k] == s[1..][i + k] == s[i + 1 + k];
    }
    assert found == needle;
    assert OccursAt(needle, s, i + 1);
  }

  /** Every piece is a substring of the text it was split from. */
  lemma {:induction false} SplitPieceOccurs(s: string, sep: char, k: nat)
    requires k < |Split(s, sep)|
    ensures Occurs(Split(s, sep)[k], s)
  {
    var p := Split(s, sep)[k];
    SplitFirstIsPrefix(s, sep);
    if k == 0 {
      assert OccursAt(p, s, 0);
    } else {
      var rest := Split(s[1..], sep);
      SplitPieceOccurs(s[1..], sep, if s[0] == sep then k - 1 else k);
      OccursLater(p, s);
    }
  }

  /** An occurrence does not stretch over a character the needle does not contain. */
  lemma OccursOnOneSide(needle: string, a: string, c: char, b: string, i: int)
    requires needle != "" && c !in needle && OccursAt(needle, a + [c] + b, i)
    ensures if i <= |a| then OccursAt(needle, a, i) else OccursAt(needle, b, i - |a| - 1)
  {
    var s := a + [c] + b;
    var m := |needle|;
    forall p | i <= p < i + m
      ensures s[p] in needle
    {
      assert s[i..i + m][p - i] == s[p];
    }
    assert s[|a|] == c;
    if i <= |a| {
      assert s[i..i + m] == a[i..i + m];
    } else {
      assert s[i..i + m] == b[i - |a| - 1..i - |a| - 1 + m];
    }
  }

  lemma OccursInside(needle: string, a: string, s: string, b: string)
    requires Occurs(needle, s)
    ensures Occurs(needle, a + s + b)
  {
    var i :| 0 <= i <= |s| - |needle| && OccursAt(needle, s, i);
    assert (a + s + b)[|a| + i..|a| + i + |needle|] == s[i..i + |needle|];
    assert OccursAt(needle, a + s + b, |a| + i);
  }

  /** The needle does not start at any of the first n positions. */
  ghost predicate NoneBefore(needle: string, s: string, n: nat) {
    forall i :: 0 <= i < n ==> !OccursAt(needle, s, i)
  }

  /** Around a character the needle does not contain, occurrences stay on one side. */
  lemma OccursSides(needle: string, a: string, c: char, b: string)
    requires needle != "" && c !in needle
    ensures Occurs(needle, a + [c] + b) <==> Occurs(needle, a) || Occurs(needle, b)
    ensures !Occurs(needle, a) ==> NoneBefore(needle, a + [c] + b, |a| + 1)
  {
    var s := a + [c] + b;
    forall i | OccursAt(needle, s, i)
      ensures if i <= |a| then OccursAt(needle, a, i) else OccursAt(needle, b, i - |a| - 1)
    {
      OccursOnOneSide(needle, a, c, b, i);
    }
    if Occurs(needle, a) {
      OccursInside(needle, "", a, [c] + b);
      assert "" + a + ([c] + b) == s;
    }
    if Occurs(needle, b) {
      OccursInside(needle, a + [c], b, "");
      assert a + [c] + b + "" == s;
    }
  }
}
