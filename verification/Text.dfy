/** ASCII case folding, stripping, splitting at slashes, and regrouping of concatenations. */
module Text {

  /** Case folding of one ASCII letter. */
  function Fold(c: char): char {
    if 'A' <= c <= 'Z' then (c as int + 32) as char else c
  }

  /** `.lower()`, and the comparison `(?i)` makes. */
  function Lower(s: string): (t: string)
    ensures |t| == |s| && forall i | 0 <= i < |s| :: t[i] == Fold(s[i])
  {
    seq(|s|, i requires 0 <= i < |s| => Fold(s[i]))
  }

  predicate Space(c: char) {
    c == ' ' || '\t' <= c <= '\r' || '\U{1c}' <= c <= '\U{1f}'
  }

  function StripLeft(s: string): string {
    if s != "" && Space(s[0]) then StripLeft(s[1..]) else s
  }

  function StripRight(s: string): string {
    if s != "" && Space(s[|s| - 1]) then StripRight(s[..|s| - 1]) else s
  }

  /** `s.strip()`. */
  function Strip(s: string): string {
    StripRight(StripLeft(s))
  }

  /** Python's ASCII white space, and no other character, is stripped at the ends, and nothing inside. */
  lemma StripIs(left: string, s: string, right: string)
    requires forall c | c in left + right :: c in " \t\n\U{0b}\U{0c}\r\U{1c}\U{1d}\U{1e}\U{1f}"
    requires s != "" ==>
               && s[0] !in " \t\n\U{0b}\U{0c}\r\U{1c}\U{1d}\U{1e}\U{1f}"
               && s[|s| - 1] !in " \t\n\U{0b}\U{0c}\r\U{1c}\U{1d}\U{1e}\U{1f}"
    ensures Strip(left + s + right) == s
  {
    assert forall c | c in left :: c in left + right;
    assert forall c | c in right :: c in left + right;
    forall c: char ensures Space(c) <==> c in " \t\n\U{0b}\U{0c}\r\U{1c}\U{1d}\U{1e}\U{1f}" { SpaceIff(c); }
    if s == "" {
      StripLeftAll(left + right);
      assert left + s + right == left + right;
    } else {
      assert left + s + right == left + (s + right);
      StripLeftPart(left, s + right);
      StripRightPart(s, right);
    }
  }

  lemma SpaceIff(c: char)
    ensures Space(c) <==> c in " \t\n\U{0b}\U{0c}\r\U{1c}\U{1d}\U{1e}\U{1f}"
  {
    var n := c as int;
    assert Space(c) <==> n in {32, 9, 10, 11, 12, 13, 28, 29, 30, 31};
  }

  lemma {:induction false} StripLeftAll(s: string)
    requires forall c | c in s :: Space(c)
    ensures StripLeft(s) == ""
  {
    if s != "" { StripLeftAll(s[1..]); }
  }

  lemma {:induction false} StripLeftPart(left: string, s: string)
    requires (forall c | c in left :: Space(c)) && s != "" && !Space(s[0])
    ensures StripLeft(left + s) == s
  {
    if left == "" {
      assert left + s == s;
    } else {
      assert (left + s)[1..] == left[1..] + s;
      StripLeftPart(left[1..], s);
    }
  }

  lemma {:induction false} StripRightPart(s: string, right: string)
    requires (forall c | c in right :: Space(c)) && s != "" && !Space(s[|s| - 1])
    ensures StripRight(s + right) == s
  {
    if right == "" {
      assert s + right == s;
    } else {
      var n := |right| - 1;
      assert (s + right)[..|s + right| - 1] == s + right[..n];
      StripRightPart(s, right[..n]);
    }
  }

  /** Every capital letter is lowered, and nothing else is changed. */
  lemma FoldIs(i: nat, c: char)
    ensures i < 26 ==> Fold("ABCDEFGHIJKLMNOPQRSTUVWXYZ"[i]) == "abcdefghijklmnopqrstuvwxyz"[i]
    ensures c !in "ABCDEFGHIJKLMNOPQRSTUVWXYZ" ==> Fold(c) == c
  {
    if 'A' <= c <= 'Z' {
      var k := c as int - 65;
      assert "ABCDEFGHIJKLMNOPQRSTUVWXYZ"[k] == c;
    }
  }

  /** `s.split("/")`. */
  function SplitSlash(s: string): (parts: seq<string>)
    ensures |parts| > 0
  {
    if s == "" then [""]
    else
      var rest := SplitSlash(s[1..]);
      if s[0] == '/' then [""] + rest else [[s[0]] + rest[0]] + rest[1..]
  }

  lemma {:induction false} SplitSegment(a: string, b: string)
    requires '/' !in a
    ensures SplitSlash(a + "/" + b) == [a] + SplitSlash(b)
  {
    var whole := a + "/" + b;
    if a == "" {
      assert whole[1..] == b;
    } else {
      assert whole[1..] == a[1..] + "/" + b;
      SplitSegment(a[1..], b);
      assert a == [a[0]] + a[1..];
    }
  }

  lemma {:induction false} SplitSingle(a: string)
    requires '/' !in a
    ensures SplitSlash(a) == [a]
  {
    if a != "" {
      SplitSingle(a[1..]);
      assert a == [a[0]] + a[1..];
    }
  }

  lemma Assoc(a: string, b: string, c: string)
    ensures a + b + c == a + (b + c)
  {
  }

  lemma Splice(before: string, kind: string, name: string, rest: string)
    ensures before + ("/" + kind + "/" + name + rest) == before + "/" + kind + "/" + name + rest
  {
  }

  lemma SpliceNamespace(before: string, ns: string, kind: string, name: string, rest: string)
    ensures before + (ns + ("/" + kind + "/" + name + rest)) == before + ns + "/" + kind + "/" + name + rest
  {
    Assoc(before, ns, "/" + kind + "/" + name + rest);
    Splice(before + ns, kind, name, rest);
  }
}
