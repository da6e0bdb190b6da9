/**
 The functions of Go's strings package that the host rules are written with, on ASCII text.
 */
module GoStrings {

  /** The ASCII members of unicode.IsSpace: tab, line feed, vertical tab, form feed, carriage return, space. */
  predicate IsSpace(c: char) {
    c == ' ' || '\t' <= c <= '\r'
  }

  function LowerChar(c: char): char {
    if 'A' <= c <= 'Z' then (c as int + 32) as char else c
  }

  function ToLower(s: string): string {
    seq(|s|, i requires 0 <= i < |s| => LowerChar(s[i]))
  }

  function TrimLeft(s: string): string {
    if s != "" && IsSpace(s[0]) then TrimLeft(s[1..]) else s
  }

  function TrimRight(s: string): string {
    if s != "" && IsSpace(s[|s|-1]) then TrimRight(s[..|s|-1]) else s
  }

  function TrimSpace(s: string): string {
    TrimRight(TrimLeft(s))
  }

  predicate HasPrefix(s: string, prefix: string) {
    prefix <= s
  }

  predicate HasSuffix(s: string, suffix: string) {
    |suffix| <= |s| && s[|s| - |suffix|..] == suffix
  }

  function TrimPrefix(s: string, prefix: string): string {
    if HasPrefix(s, prefix) then s[|prefix|..] else s
  }

  function TrimSuffix(s: string, suffix: string): string {
    if HasSuffix(s, suffix) then s[..|s| - |suffix|] else s
  }

  /** The number of non-overlapping occurrences of a non-empty piece, counted from the left. */
  function Count(s: string, piece: string): nat
    requires piece != ""
  {
    if |s| < |piece| then 0
    else if piece <= s then 1 + Count(s[|piece|..], piece)
    else Count(s[1..], piece)
  }

  function Split(s: string, sep: char): (parts: seq<string>)
    ensures |parts| >= 1
  {
    if s == "" then [""]
    else
      var rest := Split(s[1..], sep);
      if s[0] == sep then [""] + rest else [[s[0]] + rest[0]] + rest[1..]
  }

  function Join(parts: seq<string>, sep: string): string {
    if parts == [] then ""
    else if |parts| == 1 then parts[0]
    else parts[0] + sep + Join(parts[1..], sep)
  }

  /** No white space at either end. */
  predicate Trimmed(s: string) {
    s != "" ==> !IsSpace(s[0]) && !IsSpace(s[|s|-1])
  }

  lemma {:induction false} TrimLeftHead(s: string)
    ensures TrimLeft(s) != "" ==> !IsSpace(TrimLeft(s)[0])
    ensures HasSuffix(s, TrimLeft(s))
  {
    if s != "" && IsSpace(s[0]) {
      var rest := TrimLeft(s[1..]);
      TrimLeftHead(s[1..]);
      assert s[|s| - |rest|..] == s[1..][|s| - 1 - |rest|..];
    } else {
      assert s[0..] == s;
    }
  }

  lemma {:induction false} TrimRightLast(s: string)
    ensures var r := TrimRight(s); r <= s && (r != "" ==> !IsSpace(r[|r|-1]))
  {
    if s != "" && IsSpace(s[|s|-1]) {
      TrimRightLast(s[..|s|-1]);
    }
  }

  lemma TrimSpaceTrims(s: string)
    ensures Trimmed(TrimSpace(s))
    ensures forall c :: c in TrimSpace(s) ==> c in s
  {
    TrimLeftHead(s);
    TrimRightLast(TrimLeft(s));
    var l, r := TrimLeft(s), TrimSpace(s);
    forall c | c in r ensures c in s {
      var i :| 0 <= i < |r| && r[i] == c;
      assert s[|s| - |l|..][i] == l[i] == c;
    }
  }

  lemma TrimSpaceFixes(s: string)
    requires Trimmed(s)
    ensures TrimSpace(s) == s
  {
  }

  /** A string without the separator is its own only part. */
  lemma SplitWhole(s: string, sep: char)
    requires sep !in s
    ensures Split(s, sep) == [s]
  {
    SplitPlain(s, "", sep);
    assert s + "" == s;
  }

  predicate InSomePart(parts: seq<string>, c: char) {
    exists p :: p in parts && c in p
  }

  /** Splitting loses nothing but separators. */
  lemma {:induction false} SplitKeepsChar(s: string, sep: char, c: char)
    requires c in s && c != sep
    ensures InSomePart(Split(s, sep), c)
  {
    var parts, rest := Split(s, sep), Split(s[1..], sep);
    if c == s[0] {
      assert parts[0] in parts && c in parts[0];
    } else {
      SplitKeepsChar(s[1..], sep, c);
      var p :| p in rest && c in p;
      var i :| 0 <= i < |rest| && rest[i] == p;
      var q := parts[if s[0] == sep then i + 1 else i];
      assert q in parts && c in q;
    }
  }

  /** A string that ends in the separator has an empty last part. */
  lemma {:induction false} SplitTrailing(s: string, sep: char)
    ensures s == "" || s[|s|-1] == sep <==> Split(s, sep)[|Split(s, sep)|-1] == ""
  {
    if |s| >= 1 {
      SplitTrailing(s[1..], sep);
    }
  }

  lemma {:induction false} SplitSeparates(s: string, sep: char)
    ensures forall p :: p in Split(s, sep) ==> sep !in p
  {
    if s != "" {
      SplitSeparates(s[1..], sep);
    }
  }

  /** Splitting undoes joining parts that are free of the separator. */
  lemma {:induction false} SplitJoin(parts: seq<string>, sep: char)
    requires parts != []
    requires forall p :: p in parts ==> sep !in p
    ensures Split(Join(parts, [sep]), sep) == parts
  {
    if |parts| == 1 {
      SplitPlain(parts[0], "", sep);
      assert parts[0] + "" == parts[0];
    } else {
      var rest := Join(parts[1..], [sep]);
      SplitJoin(parts[1..], sep);
      SplitPlain(parts[0], [sep] + rest, sep);
      assert Join(parts, [sep]) == parts[0] + ([sep] + rest);
      assert ([sep] + rest)[1..] == rest;
      assert parts[0] + "" == parts[0];
    }
  }

  /** Joining undoes splitting. */
  lemma {:induction false} JoinSplit(s: string, sep: char)
    ensures Join(Split(s, sep), [sep]) == s
  {
    if s != "" {
      var rest := Split(s[1..], sep);
      JoinSplit(s[1..], sep);
      assert s == [s[0]] + s[1..];
      if s[0] == sep {
        assert ([""] + rest)[1..] == rest;
      } else if |rest| > 1 {
        assert ([[s[0]] + rest[0]] + rest[1..])[1..] == rest[1..];
      }
    }
  }

  lemma {:induction false} SplitPlain(head: string, tail: string, sep: char)
    requires sep !in head
    ensures Split(head + tail, sep) == [head + Split(tail, sep)[0]] + Split(tail, sep)[1..]
  {
    if head == "" {
      assert head + tail == tail;
      assert head + Split(tail, sep)[0] == Split(tail, sep)[0];
    } else {
      SplitPlain(head[1..], tail, sep);
      assert (head + tail)[1..] == head[1..] + tail;
      assert [head[0]] + (head[1..] + Split(tail, sep)[0]) == head + Split(tail, sep)[0];
    }
  }

  lemma SuffixTail(a: string, b: string, t: string)
    requires |t| <= |b|
    ensures HasSuffix(a + b, t) <==> HasSuffix(b, t)
  {
  }

  lemma SuffixTransitive(a: string, b: string, c: string)
    requires HasSuffix(a, b) && HasSuffix(b, c)
    ensures HasSuffix(a, c)
  {
  }

  /** Ending in a dot and `base` is being some text, a dot and `base`. */
  lemma LabelSuffix(host: string, base: string)
    ensures HasSuffix(host, "." + base) <==> exists front :: host == front + "." + base
  {
    if HasSuffix(host, "." + base) {
      var front := host[..|host| - |base| - 1];
      assert host == front + ("." + base) == front + "." + base;
    }
    if front :| host == front + "." + base {
      assert host == front + ("." + base);
    }
  }

  // ---------------------------------------------------------------- what the functions mean, character by character

  /** Tab, line feed, vertical tab, form feed, carriage return and space. */
  const BLANKS: string := "\t\n\U{000B}\U{000C}\r "

  predicate Blank(s: string) {
    forall c :: c in s ==> c in BLANKS
  }

  /** `h` is the text `s` with its capital letters written small. */
  predicate Spells(s: string, h: string) {
    && |s| == |h|
    && forall i :: 0 <= i < |s| ==>
         if 'A' <= s[i] <= 'Z' then h[i] as int - 'a' as int == s[i] as int - 'A' as int else h[i] == s[i]
  }

  lemma LowerSpells(s: string, h: string)
    ensures ToLower(s) == h <==> Spells(s, h)
  {
    if Spells(s, h) {
      assert forall i :: 0 <= i < |s| ==> LowerChar(s[i]) == h[i];
    }
  }

  lemma SpaceIsBlank(c: char)
    ensures IsSpace(c) <==> c in BLANKS
  {
    assert BLANKS[0] == '\t' && BLANKS[1] == '\n' && BLANKS[2] as int == 11 && BLANKS[3] as int == 12;
    assert BLANKS[4] == '\r' && BLANKS[5] == ' ' && |BLANKS| == 6;
    if IsSpace(c) {
      assert c == BLANKS[0] || c == BLANKS[1] || c == BLANKS[2] || c == BLANKS[3] || c == BLANKS[4] || c == BLANKS[5];
    }
  }

  /** `s` is `t` with white space around it, and `t` has none at its ends. */
  predicate Wraps(s: string, t: string, left: string, right: string) {
    && s == left + t + right
    && Blank(left) && Blank(right)
    && (t != "" ==> t[0] !in BLANKS && t[|t|-1] !in BLANKS)
  }

  lemma {:induction false} TrimLeftBlank(left: string, rest: string)
    requires Blank(left)
    ensures TrimLeft(left + rest) == TrimLeft(rest)
  {
    if left == "" {
      assert left + rest == rest;
    } else {
      assert left[0] in left;
      SpaceIsBlank(left[0]);
      assert (left + rest)[1..] == left[1..] + rest;
      TrimLeftBlank(left[1..], rest);
    }
  }

  lemma {:induction false} TrimRightBlank(rest: string, right: string)
    requires Blank(right)
    ensures TrimRight(rest + right) == TrimRight(rest)
  {
    if right == "" {
      assert rest + right == rest;
    } else {
      var c := right[|right|-1];
      assert c in right;
      SpaceIsBlank(c);
      assert (rest + right)[..|rest + right| - 1] == rest + right[..|right|-1];
      TrimRightBlank(rest, right[..|right|-1]);
    }
  }

  lemma {:induction false} TrimLeftParts(s: string) returns (left: string)
    ensures s == left + TrimLeft(s) && Blank(left)
  {
    left := "";
    if s != "" && IsSpace(s[0]) {
      var more := TrimLeftParts(s[1..]);
      SpaceIsBlank(s[0]);
      left := [s[0]] + more;
      assert s == [s[0]] + s[1..];
    }
  }

  lemma {:induction false} TrimRightParts(s: string) returns (right: string)
    ensures s == TrimRight(s) + right && Blank(right)
  {
    right := "";
    if s != "" && IsSpace(s[|s|-1]) {
      var more := TrimRightParts(s[..|s|-1]);
      SpaceIsBlank(s[|s|-1]);
      right := more + [s[|s|-1]];
      assert s == s[..|s|-1] + [s[|s|-1]];
    }
  }

  lemma TrimParts(s: string) returns (left: string, right: string)
    ensures Wraps(s, TrimSpace(s), left, right)
  {
    var t := TrimSpace(s);
    left := TrimLeftParts(s);
    right := TrimRightParts(TrimLeft(s));
    assert s == left + t + right;
    TrimSpaceTrims(s);
    if t != "" {
      SpaceIsBlank(t[0]);
      SpaceIsBlank(t[|t|-1]);
    }
  }

  /** TrimSpace takes off exactly the white space at both ends. */
  lemma TrimSpaceExactly(s: string, t: string)
    ensures TrimSpace(s) == t <==> exists left, right :: Wraps(s, t, left, right)
  {
    if TrimSpace(s) == t {
      var left, right := TrimParts(s);
    }
    if left, right :| Wraps(s, t, left, right) {
      UnwrapTrims(t, left, right);
    }
  }

  lemma UnwrapTrims(t: string, left: string, right: string)
    requires Blank(left) && Blank(right) && (t != "" ==> t[0] !in BLANKS && t[|t|-1] !in BLANKS)
    ensures TrimSpace(left + t + right) == t
  {
    assert left + t + right == left + (t + right);
    TrimLeftBlank(left, t + right);
    if t == "" {
      assert t + right == right + "";
      TrimLeftBlank(right, "");
    } else {
      SpaceIsBlank(t[0]);
      SpaceIsBlank(t[|t|-1]);
      TrimRightBlank(t, right);
    }
  }

  function Undotted(t: string): string {
    if t != "" && t[|t|-1] == '.' then t[..|t|-1] else t
  }

  /** `s` is a way to write `h`: with white space around, one final dot more, or in capital letters. */
  ghost predicate Written(s: string, h: string) {
    exists left, core, right :: Wraps(s, core, left, right) && Spells(Undotted(core), h)
  }

  lemma UndottedIs(t: string)
    ensures TrimSuffix(t, ".") == Undotted(t)
  {
    if t != "" {
      assert t[|t|-1..] == [t[|t|-1]];
    }
  }

  /** What lowering a trimmed text without its final dot gives. */
  lemma NormalTextExactly(s: string, h: string)
    ensures ToLower(TrimSuffix(TrimSpace(s), ".")) == h <==> Written(s, h)
    ensures TrimSuffix(ToLower(TrimSpace(s)), ".") == ToLower(TrimSuffix(TrimSpace(s), "."))
  {
    var t := TrimSpace(s);
    UndottedIs(t);
    UndottedIs(ToLower(t));
    LowerSpells(Undotted(t), h);
    TrimSpaceExactly(s, t);
    var left, right :| Wraps(s, t, left, right);
    if l, core, r :| Wraps(s, core, l, r) && Spells(Undotted(core), h) {
      TrimSpaceExactly(s, core);
    }
  }

  /** White space around a name, a final dot, and letters in either case make no difference. */
  lemma AnySpelling(left: string, name: string, dot: string, right: string, h: string)
    requires Blank(left) && Blank(right) && (dot == "" || dot == ".") && Spells(name, h)
    requires h != "" && h[0] !in BLANKS && h[|h|-1] !in BLANKS && h[|h|-1] != '.'
    ensures Written(left + (name + dot) + right, h)
  {
    var core := name + dot;
    BlankKept(name, h, 0);
    BlankKept(name, h, |h| - 1);
    assert core[0] == name[0];
    SpaceIsBlank('.');
    assert Undotted(core) == name;
    assert Wraps(left + core + right, core, left, right);
  }

  lemma BlankKept(s: string, h: string, i: nat)
    requires Spells(s, h) && i < |s|
    ensures s[i] in BLANKS <==> h[i] in BLANKS
    ensures s[i] == '.' <==> h[i] == '.'
  {
    SpaceIsBlank(s[i]);
    SpaceIsBlank(h[i]);
  }

  predicate StarAt(s: string, i: nat) {
    i + 2 <= |s| && s[i] == '*' && s[i+1] == '.'
  }

  lemma {:induction false} CountOne(s: string)
    ensures Count(s, "*.") >= 1 <==> exists i: nat :: StarAt(s, i)
  {
    if |s| >= 2 {
      assert "*." <= s <==> StarAt(s, 0);
      CountOne(s[1..]);
      if i: nat :| StarAt(s[1..], i) {
        assert StarAt(s, i + 1);
      }
      if i: nat :| i > 0 && StarAt(s, i) {
        assert StarAt(s[1..], i - 1);
      }
    }
  }

  /** The count is above one exactly when "*." occurs at two places. */
  lemma {:induction false} CountTwo(s: string)
    ensures Count(s, "*.") >= 2 <==> exists i: nat, j: nat :: i < j && StarAt(s, i) && StarAt(s, j)
  {
    if |s| >= 2 {
      assert "*." <= s <==> StarAt(s, 0);
      if StarAt(s, 0) {
        CountOne(s[2..]);
        if k: nat :| StarAt(s[2..], k) {
          assert StarAt(s, k + 2);
        }
        if i: nat, j: nat :| i < j && StarAt(s, i) && StarAt(s, j) {
          assert StarAt(s[2..], j - 2);
        }
      } else {
        CountTwo(s[1..]);
        if i: nat, j: nat :| i < j && StarAt(s[1..], i) && StarAt(s[1..], j) {
          assert StarAt(s, i + 1) && StarAt(s, j + 1);
        }
        if i: nat, j: nat :| i < j && StarAt(s, i) && StarAt(s, j) {
          assert StarAt(s[1..], i - 1) && StarAt(s[1..], j - 1);
        }
      }
    }
  }
}
