/**
 * `formatValidator` (DoValidator.py): the text is accepted when `re.findall`
 * of `\d{1,3}\.\d{1,3}\.\d{1,3}\.\d{1,3}:\d{1,5}` finds exactly one match and
 * that match is the whole text. The regular-expression engine is modelled
 * for this pattern's two kinds of element: a greedy digit repeat with
 * backtracking, and a literal character.
 */
module FormatValidation {
  import opened Wrappers
  import opened Text

  // ---------------------------------------------------------------------------
  // the matcher
  // ---------------------------------------------------------------------------

  /** One element of a compiled pattern: `\d{1,most}` (greedy), or a literal character. */
  datatype Element = DigitRun(most: nat) | Literal(c: char)

  /** `\d{1,3}\.`: one octet and the dot after it. */
  const DottedOctet: seq<Element> := [DigitRun(3), Literal('.')]

  /** `n` dotted octets, then `\d{1,3}:\d{1,5}`. */
  function OctetsThenPort(n: nat): seq<Element>
    decreases n
  {
    if n == 0 then [DigitRun(3), Literal(':'), DigitRun(5)] else DottedOctet + OctetsThenPort(n - 1)
  }

  /** `\d{1,3}\.\d{1,3}\.\d{1,3}\.\d{1,3}:\d{1,5}`. */
  const ProxyPattern: seq<Element> := OctetsThenPort(3)

  /** How many digits follow position `i`, counting at most `most` of them. */
  function CountDigits(s: string, i: nat, most: nat): (n: nat)
    requires i <= |s|
    ensures n <= most && i + n <= |s|
    ensures forall j :: i <= j < i + n ==> IsDigit(s[j])
    ensures n < most && i + n < |s| ==> !IsDigit(s[i + n])
    decreases most
  {
    if most == 0 || i == |s| || !IsDigit(s[i]) then 0 else 1 + CountDigits(s, i + 1, most - 1)
  }

  /** Where the match of `pattern` starting at `i` ends, if the engine finds one. */
  function Match(s: string, i: nat, pattern: seq<Element>): (r: Option<nat>)
    requires i <= |s|
    ensures r.Some? ==> i <= r.value <= |s|
    decreases |pattern|, 1
  {
    if |pattern| == 0 then Some(i)
    else match pattern[0]
      case Literal(c) => if i < |s| && s[i] == c then Match(s, i + 1, pattern[1..]) else None
      case DigitRun(most) => Backtrack(s, i, CountDigits(s, i, most), pattern[1..])
  }

  /**
   * The greedy repeat: the rest of the pattern is tried after `k` digits,
   * then after `k - 1`, down to one digit; the first success wins.
   */
  function Backtrack(s: string, i: nat, k: nat, rest: seq<Element>): (r: Option<nat>)
    requires i + k <= |s|
    ensures r.Some? ==> i + 1 <= r.value <= |s|
    decreases |rest| + 1, 0, k
  {
    if k == 0 then None
    else match Match(s, i + k, rest)
      case Some(e) => Some(e)
      case None => Backtrack(s, i, k - 1, rest)
  }

  /**
   * `re.findall` from position `pos`: the leftmost match is taken and the
   * scan resumes where it ended (one further on after an empty match).
   */
  function FindAll(s: string, pos: nat, pattern: seq<Element>): seq<string>
    requires pos <= |s| + 1
    decreases |s| + 1 - pos
  {
    if pos > |s| then []
    else match Match(s, pos, pattern)
      case Some(e) => [s[pos..e]] + FindAll(s, if e > pos then e else pos + 1, pattern)
      case None => FindAll(s, pos + 1, pattern)
  }

  /** `formatValidator(proxy)`. */
  function FormatValidator(proxy: string): bool {
    var found := FindAll(proxy, 0, ProxyPattern);
    |found| == 1 && found[0] == proxy
  }


  // ---------------------------------------------------------------------------
  // the format, stated by splitting
  // ---------------------------------------------------------------------------

  predicate IsOctet(t: string) {
    1 <= |t| <= 3 && AllDigits(t)
  }

  predicate IsPortText(t: string) {
    1 <= |t| <= 5 && AllDigits(t)
  }

  predicate AllOctets(octets: seq<string>) {
    forall k :: 0 <= k < |octets| ==> IsOctet(octets[k])
  }

  /**
   * Four runs of one to three digits separated by '.', then ':', then one to
   * five digits, and nothing else.
   */
  predicate IsProxyFormat(s: string) {
    var hostPort := Split(s, ':');
    |hostPort| == 2 && IsPortText(hostPort[1]) &&
    var octets := Split(hostPort[0], '.');
    |octets| == 4 && IsOctet(octets[0]) && IsOctet(octets[1]) && IsOctet(octets[2]) && IsOctet(octets[3])
  }

  /** The text `o1.o2. ... .on:port`. */
  function Dotted(octets: seq<string>, port: string): string
    requires |octets| >= 1
    decreases |octets|
  {
    if |octets| == 1 then octets[0] + [':'] + port else octets[0] + ['.'] + Dotted(octets[1..], port)
  }

  lemma {:induction false} DottedIsJoin(octets: seq<string>, port: string)
    requires |octets| >= 1
    ensures Dotted(octets, port) == Join(octets, '.') + [':'] + port
    decreases |octets|
  {
    if |octets| > 1 {
      DottedIsJoin(octets[1..], port);
    }
  }

  lemma {:induction false} JoinAvoids(parts: seq<string>, sep: char, c: char)
    requires c != sep && forall k :: 0 <= k < |parts| ==> c !in parts[k]
    ensures c !in Join(parts, sep)
    decreases |parts|
  {
    if |parts| > 1 {
      JoinAvoids(parts[1..], sep, c);
    }
  }

  lemma DigitsAvoid(t: string)
    requires AllDigits(t)
    ensures '.' !in t && ':' !in t
  {
  }

  /** Splitting a dotted text gives back its pieces, when they hold no separator. */
  lemma DottedSplit(octets: seq<string>, port: string)
    requires |octets| >= 1 && ':' !in port
    requires forall k :: 0 <= k < |octets| ==> '.' !in octets[k] && ':' !in octets[k]
    ensures IsProxyFormat(Dotted(octets, port)) <==> |octets| == 4 && AllOctets(octets) && IsPortText(port)
  {
    var host := Join(octets, '.');
    DottedIsJoin(octets, port);
    JoinAvoids(octets, '.', ':');
    SplitAtFirst(host, ':', port);
    SplitWithoutSeparator(port, ':');
    SplitJoin(octets, '.');
  }

  /** A text in the format is the dotted text of its pieces. */
  lemma ProxyFormatIsDotted(s: string) returns (octets: seq<string>, port: string)
    requires IsProxyFormat(s)
    ensures |octets| == 4 && AllOctets(octets) && IsPortText(port)
    ensures s == Dotted(octets, port)
  {
    var hostPort := Split(s, ':');
    octets, port := Split(hostPort[0], '.'), hostPort[1];
    JoinSplit(s, ':');
    JoinSplit(hostPort[0], '.');
    assert hostPort[1..] == [port];
    DottedIsJoin(octets, port);
  }

  // ---------------------------------------------------------------------------
  // what the matcher does on a digit run
  // ---------------------------------------------------------------------------

  lemma {:induction false} CountDigitsStops(s: string, i: nat, most: nat, k: nat)
    requires i + k <= |s| && k <= most
    requires forall j :: i <= j < i + k ==> IsDigit(s[j])
    requires i + k == |s| || !IsDigit(s[i + k])
    ensures CountDigits(s, i, most) == k
    decreases k
  {
    if k > 0 {
      CountDigitsStops(s, i + 1, most - 1, k - 1);
    }
  }

  /** No shorter repeat can be followed by a non-digit literal inside a digit run. */
  lemma {:induction false} ShorterRepeatsFail(s: string, i: nat, k: nat, c: char, rest: seq<Element>)
    requires i + k < |s| && !IsDigit(c)
    requires forall j :: i < j <= i + k ==> IsDigit(s[j])
    ensures Backtrack(s, i, k, [Literal(c)] + rest) == None
    decreases k
  {
    if k > 0 {
      assert ([Literal(c)] + rest)[0] == Literal(c) && ([Literal(c)] + rest)[1..] == rest;
      assert Match(s, i + k, [Literal(c)] + rest) == None;
      ShorterRepeatsFail(s, i, k - 1, c, rest);
    }
  }

  /** A run of digits followed by a non-digit literal is matched whole. */
  lemma RunThenLiteral(s: string, i: nat, most: nat, c: char, rest: seq<Element>, x: string, y: string)
    requires i <= |s| && s[i..] == x + [c] + y
    requires 1 <= |x| <= most && AllDigits(x) && !IsDigit(c)
    ensures i + |x| + 1 <= |s| && s[i + |x| + 1..] == y
    ensures Match(s, i, [DigitRun(most), Literal(c)] + rest) == Match(s, i + |x| + 1, rest)
  {
    var k := |x|;
    var tail := [Literal(c)] + rest;
    forall j | i <= j < i + k ensures IsDigit(s[j]) {
      assert s[j] == s[i..][j - i] == x[j - i];
    }
    assert s[i + k] == s[i..][k] == c;
    CountDigitsStops(s, i, most, k);
    assert ([DigitRun(most), Literal(c)] + rest)[1..] == tail;
    assert tail[0] == Literal(c) && tail[1..] == rest;
    ShorterRepeatsFail(s, i, k - 1, c, rest);
    assert Match(s, i, [DigitRun(most), Literal(c)] + rest) == Backtrack(s, i, k, tail);
    assert Match(s, i + k, tail) == Match(s, i + k + 1, rest);
    assert s[i + k + 1..] == s[i..][k + 1..] == y;
  }

  /** A run of digits that ends the text and fits the repeat is matched to the end. */
  lemma RunToEnd(s: string, i: nat, most: nat)
    requires i <= |s| && 1 <= |s| - i <= most && AllDigits(s[i..])
    ensures Match(s, i, [DigitRun(most)]) == Some(|s|)
  {
    forall j | i <= j < |s| ensures IsDigit(s[j]) {
      assert s[j] == s[i..][j - i];
    }
    CountDigitsStops(s, i, most, |s| - i);
    assert [DigitRun(most)][1..] == [];
    assert Match(s, i, [DigitRun(most)]) == Backtrack(s, i, |s| - i, []);
    assert Match(s, |s|, []) == Some(|s|);
  }

  lemma {:induction false} BacktrackFound(s: string, i: nat, k: nat, rest: seq<Element>, e: nat) returns (j: nat)
    requires i + k <= |s| && Backtrack(s, i, k, rest) == Some(e)
    ensures 1 <= j <= k && Match(s, i + j, rest) == Some(e)
    decreases k
  {
    if Match(s, i + k, rest).Some? {
      j := k;
    } else {
      j := BacktrackFound(s, i, k - 1, rest, e);
    }
  }

  /** What a successful match of a digit run and a literal consumed. */
  lemma RunThenLiteralFound(s: string, i: nat, most: nat, c: char, rest: seq<Element>, e: nat)
    returns (x: string, y: string)
    requires i <= |s| && Match(s, i, [DigitRun(most), Literal(c)] + rest) == Some(e)
    ensures s[i..] == x + [c] + y && 1 <= |x| <= most && AllDigits(x)
    ensures i + |x| + 1 <= |s| && y == s[i + |x| + 1..]
    ensures Match(s, i + |x| + 1, rest) == Some(e)
  {
    var tail := [Literal(c)] + rest;
    assert ([DigitRun(most), Literal(c)] + rest)[1..] == tail;
    assert tail[0] == Literal(c) && tail[1..] == rest;
    var n := CountDigits(s, i, most);
    var j := BacktrackFound(s, i, n, tail, e);
    x := s[i..i + j];
    y := s[i + j + 1..];
    assert s[i..] == x + [c] + y;
  }

  /** What a successful match of a final digit run consumed. */
  lemma RunToEndFound(s: string, i: nat, most: nat)
    requires i <= |s| && Match(s, i, [DigitRun(most)]) == Some(|s|)
    ensures 1 <= |s| - i <= most && AllDigits(s[i..])
  {
    assert [DigitRun(most)][1..] == [];
    var n := CountDigits(s, i, most);
    var j := BacktrackFound(s, i, n, [], |s|);
  }

  // ---------------------------------------------------------------------------
  // the matcher recognises exactly the format
  // ---------------------------------------------------------------------------

  lemma LastOctetAndPortMatch(s: string, i: nat, octet: string, port: string)
    requires i <= |s| && IsOctet(octet) && IsPortText(port) && s[i..] == octet + [':'] + port
    ensures Match(s, i, OctetsThenPort(0)) == Some(|s|)
  {
    LastPartShape();
    RunThenLiteral(s, i, 3, ':', [DigitRun(5)], octet, port);
    RunToEnd(s, i + |octet| + 1, 5);
  }

  /** The last part of the pattern: an octet run, ':' and a port run. */
  lemma LastPartShape()
    ensures OctetsThenPort(0) == [DigitRun(3), Literal(':')] + [DigitRun(5)]
  {
  }

  lemma LastOctetAndPortFound(s: string, i: nat) returns (octet: string, port: string)
    requires i <= |s| && Match(s, i, OctetsThenPort(0)) == Some(|s|)
    ensures IsOctet(octet) && IsPortText(port) && s[i..] == octet + [':'] + port
  {
    LastPartShape();
    octet, port := RunLiteralRunFound(s, i, 3, ':', 5);
  }

  /** What a match to the end of a digit run, a literal and a second digit run consumed. */
  lemma RunLiteralRunFound(s: string, i: nat, most: nat, c: char, last: nat) returns (x: string, y: string)
    requires i <= |s| && Match(s, i, [DigitRun(most), Literal(c)] + [DigitRun(last)]) == Some(|s|)
    ensures 1 <= |x| <= most && AllDigits(x) && 1 <= |y| <= last && AllDigits(y)
    ensures s[i..] == x + [c] + y
  {
    x, y := RunThenLiteralFound(s, i, most, c, [DigitRun(last)], |s|);
    var j := i + |x| + 1;
    RunToEndFound(s, j, last);
  }

  lemma OctetsTail(octets: seq<string>)
    requires |octets| >= 1 && AllOctets(octets)
    ensures AllOctets(octets[1..])
  {
    forall k | 0 <= k < |octets[1..]| ensures IsOctet(octets[1..][k]) { assert octets[1..][k] == octets[k + 1]; }
  }

  /** A dotted text of octets and a port is matched to its end. */
  lemma {:induction false} DottedMatches(s: string, i: nat, n: nat, octets: seq<string>, port: string)
    requires i <= |s| && |octets| == n + 1 && AllOctets(octets) && IsPortText(port)
    requires s[i..] == Dotted(octets, port)
    ensures Match(s, i, OctetsThenPort(n)) == Some(|s|)
    decreases n
  {
    assert IsOctet(octets[0]);
    if n == 0 {
      LastOctetAndPortMatch(s, i, octets[0], port);
    } else {
      OctetsTail(octets);
      RunThenLiteral(s, i, 3, '.', OctetsThenPort(n - 1), octets[0], Dotted(octets[1..], port));
      DottedMatches(s, i + |octets[0]| + 1, n - 1, octets[1..], port);
    }
  }

  /** A match to the end is a dotted text of octets and a port. */
  lemma {:induction false} MatchedIsDotted(s: string, i: nat, n: nat) returns (octets: seq<string>, port: string)
    requires i <= |s| && Match(s, i, OctetsThenPort(n)) == Some(|s|)
    ensures |octets| == n + 1 && AllOctets(octets) && IsPortText(port)
    ensures s[i..] == Dotted(octets, port)
    decreases n
  {
    if n == 0 {
      var x, y := LastOctetAndPortFound(s, i);
      DottedSingle(x, y);
      octets, port := [x], y;
    } else {
      var x := LeadingOctetFound(s, i, n);
      var j := i + |x| + 1;
      var os, p := MatchedIsDotted(s, j, n - 1);
      DottedCons(x, os, p);
      assert s[i..] == x + ['.'] + Dotted(os, p);
      octets, port := [x] + os, p;
    }
  }

  /** A match of a pattern with a leading octet starts with an octet and a '.', and matches the rest after them. */
  lemma LeadingOctetFound(s: string, i: nat, n: nat) returns (x: string)
    requires n > 0 && i <= |s| && Match(s, i, OctetsThenPort(n)) == Some(|s|)
    ensures IsOctet(x) && i + |x| + 1 <= |s| && s[i..] == x + ['.'] + s[i + |x| + 1..]
    ensures Match(s, i + |x| + 1, OctetsThenPort(n - 1)) == Some(|s|)
  {
    assert OctetsThenPort(n) == [DigitRun(3), Literal('.')] + OctetsThenPort(n - 1);
    var y;
    x, y := RunThenLiteralFound(s, i, 3, '.', OctetsThenPort(n - 1), |s|);
  }

  /** A single octet and a port. */
  lemma DottedSingle(x: string, port: string)
    requires IsOctet(x)
    ensures AllOctets([x]) && Dotted([x], port) == x + [':'] + port
  {
  }

  /** One more octet in front of a dotted text. */
  lemma DottedCons(x: string, os: seq<string>, port: string)
    requires |os| >= 1 && IsOctet(x) && AllOctets(os)
    ensures AllOctets([x] + os)
    ensures Dotted([x] + os, port) == x + ['.'] + Dotted(os, port)
  {
    assert ([x] + os)[1..] == os;
    forall k | 0 <= k < |[x] + os| ensures IsOctet(([x] + os)[k]) {
      if k > 0 { assert ([x] + os)[k] == os[k - 1]; }
    }
  }

  /** A text is in the format exactly when the engine matches it from start to end. */
  lemma FullMatchIffFormat(s: string)
    ensures Match(s, 0, ProxyPattern) == Some(|s|) <==> IsProxyFormat(s)
  {
    if Match(s, 0, ProxyPattern) == Some(|s|) {
      var octets, port := MatchedIsDotted(s, 0, 3);
      forall k | 0 <= k < |octets| ensures '.' !in octets[k] && ':' !in octets[k] {
        DigitsAvoid(octets[k]);
      }
      DigitsAvoid(port);
      DottedSplit(octets, port);
    }
    if IsProxyFormat(s) {
      var octets, port := ProxyFormatIsDotted(s);
      DottedMatches(s, 0, 3, octets, port);
    }
  }

  /** The first text `findall` reports is a match the engine found at or after `pos`. */
  lemma {:induction false} FirstFound(s: string, pos: nat, pattern: seq<Element>) returns (p: nat, e: nat)
    requires pos <= |s| + 1 && |FindAll(s, pos, pattern)| > 0
    ensures pos <= p <= |s| && Match(s, p, pattern) == Some(e)
    ensures FindAll(s, pos, pattern)[0] == s[p..e]
    decreases |s| + 1 - pos
  {
    if Match(s, pos, pattern).Some? {
      p, e := pos, Match(s, pos, pattern).value;
    } else {
      p, e := FirstFound(s, pos + 1, pattern);
    }
  }

  /** No match starts at the end of the text: the pattern opens with a digit. */
  lemma NothingAtEnd(s: string)
    ensures FindAll(s, |s|, ProxyPattern) == []
  {
    assert ProxyPattern[0] == DigitRun(3);
    assert CountDigits(s, |s|, 3) == 0;
  }

  /**
   * `formatValidator(s)` holds exactly when `s` is four runs of one to three
   * digits separated by '.', then ':', then one to five digits.
   */
  lemma FormatValidatorIsProxyFormat(s: string)
    ensures FormatValidator(s) <==> IsProxyFormat(s)
  {
    FullMatchIffFormat(s);
    var found := FindAll(s, 0, ProxyPattern);
    if FormatValidator(s) {
      var p, e := FirstFound(s, 0, ProxyPattern);
      assert |s[p..e]| == |s|;
    }
    if IsProxyFormat(s) {
      NothingAtEnd(s);
      var octets, port := ProxyFormatIsDotted(s);
      assert |s| > 0 by {
        DottedIsJoin(octets, port);
      }
      assert found == [s[0..|s|]] + FindAll(s, |s|, ProxyPattern);
    }
  }

  // ---------------------------------------------------------------------------
  // examples
  // ---------------------------------------------------------------------------

  /** No range check: every octet may be 999 and the port 0. */
  lemma AcceptsOutOfRange()
    ensures FormatValidator("999.999.999.999:0")
  {
    var octets := ["999", "999", "999", "999"];
    assert AllOctets(octets);
    assert "999.999.999.999:0" == Dotted(octets, "0");
    DottedMatches("999.999.999.999:0", 0, 3, octets, "0");
    FullMatchIffFormat("999.999.999.999:0");
    FormatValidatorIsProxyFormat("999.999.999.999:0");
  }

  /** The address with the given pieces is refused, because a piece is not a digit run of the right length. */
  lemma RejectsPieces(octets: seq<string>, port: string)
    requires |octets| == 4 && ':' !in port
    requires forall k :: 0 <= k < |octets| ==> '.' !in octets[k] && ':' !in octets[k]
    requires !AllOctets(octets) || !IsPortText(port)
    ensures !FormatValidator(Dotted(octets, port))
  {
    DottedSplit(octets, port);
    FormatValidatorIsProxyFormat(Dotted(octets, port));
  }

  /** A four-digit octet or a six-digit port is refused: the match found is shorter than the text. */
  lemma RejectsLongOctet()
    ensures !FormatValidator("1234.1.1.1:80")
  {
    assert "1234.1.1.1:80" == Dotted(["1234", "1", "1", "1"], "80");
    RejectsPieces(["1234", "1", "1", "1"], "80");
  }

  lemma RejectsLongPort()
    ensures !FormatValidator("1.1.1.1:123456")
  {
    assert "1.1.1.1:123456" == Dotted(["1", "1", "1", "1"], "123456");
    RejectsPieces(["1", "1", "1", "1"], "123456");
  }

  /** Anything before or after the address is refused. */
  lemma RejectsLeadingSpace()
    ensures !FormatValidator(" 1.1.1.1:80")
  {
    assert " 1.1.1.1:80" == Dotted([" 1", "1", "1", "1"], "80");
    assert !IsDigit(" 1"[0]);
    RejectsPieces([" 1", "1", "1", "1"], "80");
  }

  lemma RejectsTrailingSpace()
    ensures !FormatValidator("1.1.1.1:80 ")
  {
    assert "1.1.1.1:80 " == Dotted(["1", "1", "1", "1"], "80 ");
    assert !IsDigit("80 "[2]);
    RejectsPieces(["1", "1", "1", "1"], "80 ");
  }

  lemma RejectsPrefix()
    ensures !FormatValidator("x1.1.1.1:80")
  {
    assert "x1.1.1.1:80" == Dotted(["x1", "1", "1", "1"], "80");
    assert !IsDigit("x1"[0]);
    RejectsPieces(["x1", "1", "1", "1"], "80");
  }

  /** The empty text is refused. */
  lemma RejectsEmpty()
    ensures !FormatValidator("")
  {
    FormatValidatorIsProxyFormat("");
  }
}
