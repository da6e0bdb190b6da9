/** The exact-name normaliser of internal/pki/pki.go and the pattern normaliser built on it. */
module PkiHosts {
  import opened Results
  import opened GoStrings

  datatype HostError = NoHosts | NotExact(host: string)

  const MAX_NAME: nat := 253
  const MAX_LABEL: nat := 63

  predicate LabelChar(c: char) {
    'a' <= c <= 'z' || '0' <= c <= '9' || c == '-'
  }

  predicate ValidLabel(part: string) {
    && part != ""
    && |part| <= MAX_LABEL
    && part[0] != '-'
    && part[|part|-1] != '-'
    && forall c :: c in part ==> LabelChar(c)
  }

  /** The checks normalizeHost makes on a name once it has been lowered and trimmed. */
  predicate Exact(host: string) {
    && host != ""
    && |host| <= MAX_NAME
    && (forall c :: c in host ==> c !in "*/:\\")
    && forall part :: part in Split(host, '.') ==> ValidLabel(part)
  }

  function NormalizeHost(host: string): Result<string, HostError> {
    var h := TrimSuffix(ToLower(TrimSpace(host)), ".");
    if Exact(h) then Ok(h) else Err(NotExact(host))
  }

  function NormalizePattern(host: string): Result<string, HostError> {
    var h := ToLower(TrimSpace(host));
    if HasPrefix(h, "*.") then
      match NormalizeHost(h[2..])
      case Ok(name) => Ok("*." + name)
      case Err(e) => Err(e)
    else
      NormalizeHost(h)
  }

  /** What a normalised pattern looks like: an exact name, or "*." before one. */
  predicate Pattern(p: string) {
    Exact(p) || (HasPrefix(p, "*.") && Exact(p[2..]))
  }

  lemma ExactChars(h: string)
    requires Exact(h)
    ensures forall c :: c in h ==> LabelChar(c) || c == '.'
    ensures h[|h|-1] != '.'
  {
    SplitTrailing(h, '.');
    var parts := Split(h, '.');
    forall c | c in h ensures LabelChar(c) || c == '.' {
      if c != '.' {
        SplitKeepsChar(h, '.', c);
        var part :| part in parts && c in part;
      }
    }
    assert parts[|parts|-1] in parts;
  }

  /** Lowering and trimming leave an exact name as it is, so the normaliser returns it unchanged. */
  lemma ExactIsPlain(h: string)
    requires Exact(h)
    ensures ToLower(h) == h && TrimSpace(h) == h && TrimSuffix(h, ".") == h
    ensures !HasPrefix(h, "*.")
    ensures NormalizeHost(h) == Ok(h)
    ensures NormalizePattern(h) == Ok(h)
  {
    ExactChars(h);
    assert h[0] in h && h[|h|-1] in h;
    forall i | 0 <= i < |h| ensures LowerChar(h[i]) == h[i] {
      assert h[i] in h;
    }
    assert ToLower(h) == h;
    TrimSpaceFixes(h);
    assert h[|h|-1..][0] == h[|h|-1];
  }

  /** The names normalizeHost returns are exactly the names it maps to themselves. */
  lemma NormalizeHostFixedPoints(h: string)
    ensures NormalizeHost(h) == Ok(h) <==> Exact(h)
    ensures NormalizeHost(h).Ok? ==> NormalizeHost(NormalizeHost(h).value) == NormalizeHost(h)
  {
    if Exact(h) {
      ExactIsPlain(h);
    }
    if NormalizeHost(h).Ok? {
      ExactIsPlain(NormalizeHost(h).value);
    }
  }

  lemma NormalizePatternFixedPoints(p: string)
    ensures NormalizePattern(p) == Ok(p) <==> Pattern(p)
    ensures NormalizePattern(p).Ok? ==> Pattern(NormalizePattern(p).value)
    ensures NormalizePattern(p).Ok? ==> NormalizePattern(NormalizePattern(p).value) == NormalizePattern(p)
  {
    if NormalizePattern(p).Ok? {
      PatternIsPlain(NormalizePattern(p).value);
    }
    if Pattern(p) {
      PatternIsPlain(p);
    }
  }

  lemma PatternIsPlain(p: string)
    requires Pattern(p)
    ensures p != "" && Trimmed(p) && p[|p|-1] != '.'
    ensures ToLower(p) == p
    ensures NormalizePattern(p) == Ok(p)
  {
    PatternChars(p);
    forall i | 0 <= i < |p| ensures LowerChar(p[i]) == p[i] {
      assert p[i] in p;
    }
    assert ToLower(p) == p;
    TrimSpaceFixes(p);
    if Exact(p) {
      ExactIsPlain(p);
    } else {
      ExactIsPlain(p[2..]);
      assert p == "*." + p[2..];
    }
  }

  lemma PatternChars(p: string)
    requires Pattern(p)
    ensures forall c :: c in p ==> LabelChar(c) || c == '.' || c == '*'
    ensures p != "" && Trimmed(p) && p[|p|-1] != '.'
  {
    if Exact(p) {
      ExactChars(p);
    } else {
      ExactChars(p[2..]);
      assert p == "*." + p[2..];
    }
    assert p[0] in p && p[|p|-1] in p;
  }

  // ---------------------------------------------------------------- which texts are accepted, and as what

  /**
   An exact name is one to 253 characters of labels between dots, each one to 63 small letters, digits
   and hyphens with no hyphen at either end.
   */
  lemma ExactMeans(h: string)
    ensures Exact(h) <==>
              && |h| <= 253
              && exists labels ::
                   && labels != [] && h == Join(labels, ".")
                   && forall l :: l in labels ==>
                        && 1 <= |l| <= 63 && l[0] != '-' && l[|l|-1] != '-'
                        && forall c :: c in l ==> 'a' <= c <= 'z' || '0' <= c <= '9' || c == '-'
  {
    if Exact(h) {
      JoinSplit(h, '.');
      assert forall l :: l in Split(h, '.') ==> ValidLabel(l);
    }
    if labels :| |h| <= 253 && labels != [] && h == Join(labels, ".")
                 && forall l :: l in labels ==>
                      && 1 <= |l| <= 63 && l[0] != '-' && l[|l|-1] != '-'
                      && forall c :: c in l ==> 'a' <= c <= 'z' || '0' <= c <= '9' || c == '-'
    {
      SplitJoin(labels, '.');
      LabelsMakeExact(h, labels);
    }
  }

  lemma LabelsMakeExact(h: string, labels: seq<string>)
    requires |h| <= MAX_NAME && Split(h, '.') == labels && forall l :: l in labels ==> ValidLabel(l)
    ensures Exact(h)
  {
    assert labels[0] in labels;
    forall c | c in h ensures c !in "*/:\\" {
      if c != '.' {
        SplitKeepsChar(h, '.', c);
        var part :| part in labels && c in part;
      }
    }
  }

  /** The ends of an exact name are no white space and no dots. */
  lemma ExactEnds(h: string)
    requires Exact(h)
    ensures h[0] !in BLANKS && h[|h|-1] !in BLANKS && h[|h|-1] != '.'
  {
    ExactChars(h);
    assert h[0] in h && h[|h|-1] in h;
    SpaceIsBlank(h[0]);
    SpaceIsBlank(h[|h|-1]);
  }

  /** NormalizeHost accepts exactly the ways to write an exact name, and returns that name. */
  lemma NormalizeHostExactly(s: string, h: string)
    ensures NormalizeHost(s) == Ok(h) <==> Exact(h) && Written(s, h)
  {
    NormalTextExactly(s, h);
  }

  /** In particular white space around the name, a final dot and capital letters make no difference. */
  lemma NormalizeAnySpelling(left: string, name: string, dot: string, right: string, h: string)
    requires Exact(h) && Spells(name, h)
    requires Blank(left) && Blank(right) && (dot == "" || dot == ".")
    ensures NormalizeHost(left + (name + dot) + right) == Ok(h)
  {
    ExactEnds(h);
    AnySpelling(left, name, dot, right, h);
    NormalizeHostExactly(left + (name + dot) + right, h);
  }

  /** A text and the text with small letters are ways to write the same names. */
  lemma LoweredWrites(s: string, h: string)
    ensures Written(ToLower(s), h) <==> Written(s, h)
  {
    NormalTextExactly(s, h);
    NormalTextExactly(ToLower(s), h);
    LowerTrims(s);
  }

  lemma {:induction false} LowerTrimsLeft(s: string)
    ensures TrimLeft(ToLower(s)) == ToLower(TrimLeft(s))
  {
    if s != "" && IsSpace(s[0]) {
      LowerTrimsLeft(s[1..]);
      assert ToLower(s)[1..] == ToLower(s[1..]);
    }
  }

  lemma {:induction false} LowerTrimsRight(s: string)
    ensures TrimRight(ToLower(s)) == ToLower(TrimRight(s))
  {
    if s != "" && IsSpace(s[|s|-1]) {
      LowerTrimsRight(s[..|s|-1]);
      assert ToLower(s)[..|s|-1] == ToLower(s[..|s|-1]);
    }
  }

  lemma LowerTrims(s: string)
    ensures ToLower(TrimSuffix(TrimSpace(ToLower(s)), ".")) == ToLower(TrimSuffix(TrimSpace(s), "."))
  {
    LowerTrimsLeft(s);
    LowerTrimsRight(TrimLeft(s));
    var t := TrimSpace(s);
    UndottedIs(t);
    UndottedIs(ToLower(t));
    assert ToLower(ToLower(Undotted(t))) == ToLower(Undotted(t));
  }

  /** A pattern text: white space, "*.", and a way to write the name below which the pattern stands. */
  ghost predicate StarWritten(s: string, h: string) {
    exists left, rest, right :: Wraps(s, "*." + rest, left, right) && Written(rest, h)
  }

  /** NormalizePattern accepts exactly the ways to write an exact name, with or without a "*." before it. */
  lemma NormalizePatternExactly(s: string, h: string)
    requires Exact(h)
    ensures NormalizePattern(s) == Ok(h) <==> Written(s, h)
    ensures NormalizePattern(s) == Ok("*." + h) <==> StarWritten(s, h)
  {
    var t := TrimSpace(s);
    TrimSpaceExactly(s, t);
    var left, right :| Wraps(s, t, left, right);
    TrimSpaceTrims(s);
    TrimSpaceFixes(t);
    ExactIsPlain(h);
    PatternOfTrimmed(s, t, h);
    if StarWritten(s, h) {
      var l, rest, r :| Wraps(s, "*." + rest, l, r) && Written(rest, h);
      TrimSpaceExactly(s, "*." + rest);
      assert ("*." + rest)[2..] == rest;
    }
    if "*." <= t && Written(t[2..], h) {
      assert t == "*." + t[2..];
    }
    if Written(s, h) && "*." <= t {
      StarIsNoName(s, t, h);
    }
  }

  /** What NormalizePattern does with the trimmed text. */
  lemma PatternOfTrimmed(s: string, t: string, h: string)
    requires Exact(h) && t == TrimSpace(s)
    ensures if "*." <= t then
              NormalizePattern(s) != Ok(h) && (NormalizePattern(s) == Ok("*." + h) <==> Written(t[2..], h))
            else
              NormalizePattern(s) != Ok("*." + h) && (NormalizePattern(s) == Ok(h) <==> Written(s, h))
  {
    var low := ToLower(t);
    assert "*." <= t <==> "*." <= low;
    ExactIsPlain(h);
    if "*." <= t {
      assert low[2..] == ToLower(t[2..]);
      NormalizeHostExactly(low[2..], h);
      LoweredWrites(t[2..], h);
      StarInjective(h, NormalizePattern(s));
    } else {
      NormalizeHostExactly(low, h);
      LoweredWrites(t, h);
      TrimmedWrites(s, h);
      if NormalizePattern(s).Ok? {
        ExactIsPlain(NormalizePattern(s).value);
      }
    }
  }

  lemma StarInjective(h: string, r: Result<string, HostError>)
    ensures forall name: string :: r == Ok("*." + name) ==> (r == Ok("*." + h) <==> name == h)
  {
    forall name: string | r == Ok("*." + name) ensures r == Ok("*." + h) <==> name == h {
      assert ("*." + name)[2..] == name && ("*." + h)[2..] == h;
    }
  }

  lemma TrimmedWrites(s: string, h: string)
    ensures Written(TrimSpace(s), h) <==> Written(s, h)
  {
    NormalTextExactly(s, h);
    NormalTextExactly(TrimSpace(s), h);
    TrimSpaceTrims(s);
    TrimSpaceFixes(TrimSpace(s));
  }

  /** A text that begins with "*." writes no exact name. */
  lemma StarIsNoName(s: string, t: string, h: string)
    requires t == TrimSpace(s) && "*." <= t && Written(s, h)
    ensures !Exact(h)
  {
    NormalTextExactly(s, h);
    UndottedIs(t);
    assert h[0] == t[0] == '*';
    assert h[0] in h;
    if Exact(h) {
      ExactChars(h);
      assert false;
    }
  }
}
