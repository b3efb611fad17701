/** The JavaScript string operations and object names the modelled code leans on. */
module JsText {

  /** White space for trimming and for patterns: the two sets agree. */
  predicate IsSpace(c: char) {
    var n := c as int;
    || 9 <= n <= 13 || n == 0x20 || n == 0xA0 || n == 0x1680 || 0x2000 <= n <= 0x200A
    || n == 0x2028 || n == 0x2029 || n == 0x202F || n == 0x205F || n == 0x3000 || n == 0xFEFF
  }

  function TrimStart(s: string): (r: string)
    ensures |r| <= |s|
  {
    if s != "" && IsSpace(s[0]) then TrimStart(s[1..]) else s
  }

  function TrimEnd(s: string): (r: string)
    ensures |r| <= |s|
  {
    if s != "" && IsSpace(s[|s| - 1]) then TrimEnd(s[..|s| - 1]) else s
  }

  function Trim(s: string): string {
    TrimEnd(TrimStart(s))
  }

  lemma {:induction false} TrimStartFacts(s: string)
    ensures var r := TrimStart(s);
            && r == s[|s| - |r|..]
            && (r != "" ==> !IsSpace(r[0]))
            && forall i | 0 <= i < |s| - |r| :: IsSpace(s[i])
  {
    if s != "" && IsSpace(s[0]) {
      TrimStartFacts(s[1..]);
      var r := TrimStart(s);
      assert s[1..][|s| - 1 - |r|..] == s[|s| - |r|..];
      assert forall i | 1 <= i < |s| - |r| :: s[i] == s[1..][i - 1];
    }
  }

  lemma {:induction false} TrimEndFacts(s: string)
    ensures var r := TrimEnd(s);
            && r == s[..|r|]
            && (r != "" ==> !IsSpace(r[|r| - 1]))
            && forall i | |r| <= i < |s| :: IsSpace(s[i])
  {
    if s != "" && IsSpace(s[|s| - 1]) {
      TrimEndFacts(s[..|s| - 1]);
      assert s[..|s| - 1][..|TrimEnd(s)|] == s[..|TrimEnd(s)|];
    }
  }

  predicate Trimmed(s: string) {
    s != "" ==> !IsSpace(s[0]) && !IsSpace(s[|s| - 1])
  }

  lemma TrimIsTrimmed(s: string)
    ensures Trimmed(Trim(s))
  {
    TrimStartFacts(s);
    TrimEndFacts(TrimStart(s));
  }

  /** Trimming a string with no white space at either end changes nothing. */
  lemma TrimOfTrimmed(s: string)
    requires Trimmed(s)
    ensures Trim(s) == s
  {}

  predicate Blank(s: string) {
    forall i | 0 <= i < |s| :: IsSpace(s[i])
  }

  /** Trimming leaves nothing exactly when every character is white space. */
  lemma BlankIffTrimEmpty(s: string)
    ensures Blank(s) <==> Trim(s) == ""
  {
    var t := TrimStart(s);
    TrimStartFacts(s);
    TrimEndFacts(t);
    if t != "" {
      assert t[0] == s[|s| - |t|];
    }
  }

  // ---- Words ----

  /** How many characters stand before the first white space. */
  function WordEnd(s: string): (n: nat)
    ensures n <= |s|
    ensures forall i | 0 <= i < n :: !IsSpace(s[i])
    ensures n < |s| ==> IsSpace(s[n])
  {
    if s == "" || IsSpace(s[0]) then 0 else 1 + WordEnd(s[1..])
  }

  /** The maximal runs of characters that are not white space, in order. */
  function Words(s: string): seq<string>
    decreases |s|
  {
    if s == "" then []
    else if IsSpace(s[0]) then Words(s[1..])
    else [s[..WordEnd(s)]] + Words(s[WordEnd(s)..])
  }

  /** Words with one blank between them. */
  function Spaced(words: seq<string>): string {
    if words == [] then ""
    else if |words| == 1 then words[0]
    else words[0] + " " + Spaced(words[1..])
  }

  lemma {:induction false} WordsTrimStart(s: string)
    ensures Words(TrimStart(s)) == Words(s)
  {
    if s != "" && IsSpace(s[0]) {
      WordsTrimStart(s[1..]);
    }
  }

  lemma {:induction false} WordEndPrefix(s: string, t: string)
    requires s != "" && (t == "" || IsSpace(t[0]))
    ensures WordEnd(s + t) == WordEnd(s)
    decreases |s|
  {
    assert (s + t)[1..] == s[1..] + t;
    if |s| > 1 {
      WordEndPrefix(s[1..], t);
    } else {
      assert s[1..] + t == t;
    }
  }

  /** Words do not run over white space. */
  lemma {:induction false} WordsConcat(s: string, t: string)
    requires t == "" || IsSpace(t[0])
    ensures Words(s + t) == Words(s) + Words(t)
    decreases |s|
  {
    if s == "" {
      assert s + t == t;
    } else if IsSpace(s[0]) {
      assert (s + t)[1..] == s[1..] + t;
      WordsConcat(s[1..], t);
    } else {
      var n := WordEnd(s);
      WordEndPrefix(s, t);
      assert (s + t)[..n] == s[..n];
      assert (s + t)[n..] == s[n..] + t;
      WordsConcat(s[n..], t);
    }
  }

  lemma {:induction false} WordsTrimEnd(s: string)
    ensures Words(TrimEnd(s)) == Words(s)
  {
    if s != "" && IsSpace(s[|s| - 1]) {
      var n := |s| - 1;
      WordsTrimEnd(s[..n]);
      assert s == s[..n] + [s[n]];
      WordsConcat(s[..n], [s[n]]);
      assert Words([s[n]]) == [];
    }
  }

  lemma WordsTrim(s: string)
    ensures Words(Trim(s)) == Words(s)
  {
    WordsTrimStart(s);
    WordsTrimEnd(TrimStart(s));
  }

  lemma {:induction false} SingleWord(w: string)
    requires w != "" && forall i | 0 <= i < |w| :: !IsSpace(w[i])
    ensures Words(w) == [w]
  {
    assert WordEnd(w) == |w|;
    assert w[..|w|] == w;
  }

  lemma {:induction false} TrimEndOfWord(w: string)
    requires w != "" && forall i | 0 <= i < |w| :: !IsSpace(w[i])
    ensures TrimEnd(w) == w && TrimEnd(w + " ") == w
  {
    assert (w + " ")[..|w|] == w;
  }

  lemma {:induction false} TrimEndConcat(a: string, b: string)
    requires TrimEnd(b) != ""
    ensures TrimEnd(a + b) == a + TrimEnd(b)
    decreases |b|
  {
    var n := |b| - 1;
    assert (a + b)[..|a + b| - 1] == a + b[..n];
    if IsSpace(b[n]) {
      TrimEndConcat(a, b[..n]);
    }
  }

  lemma SpacedFirst(w: string, rest: seq<string>)
    requires rest != []
    ensures Spaced([w] + rest) == w + " " + Spaced(rest)
  {
    assert ([w] + rest)[1..] == rest;
  }

  lemma {:induction false} SpacedNonEmpty(s: string)
    requires s != "" && !IsSpace(s[0])
    ensures Words(s) != [] && Spaced(Words(s)) != ""
  {
    var rest := Words(s[WordEnd(s)..]);
    assert Words(s) == [s[..WordEnd(s)]] + rest;
    if rest != [] {
      SpacedFirst(s[..WordEnd(s)], rest);
    }
  }

  /** Lower case on the ASCII letters, which is all that the fixed words compared with it need. */
  function Lower(s: string): string {
    seq(|s|, i requires 0 <= i < |s| => if 'A' <= s[i] <= 'Z' then ((s[i] as int) + 32) as char else s[i])
  }

  predicate Without(s: string, c: char) {
    forall i | 0 <= i < |s| :: s[i] != c
  }

  /** Splitting at every occurrence of a one-character separator. */
  function SplitOn(s: string, c: char): (parts: seq<string>)
    ensures |parts| >= 1
  {
    if s == "" then [""]
    else if s[0] == c then [""] + SplitOn(s[1..], c)
    else
      var rest := SplitOn(s[1..], c);
      [[s[0]] + rest[0]] + rest[1..]
  }

  lemma {:induction false} SplitPartsWithout(s: string, c: char)
    ensures forall i | 0 <= i < |SplitOn(s, c)| :: Without(SplitOn(s, c)[i], c)
  {
    if s != "" {
      SplitPartsWithout(s[1..], c);
    }
  }

  lemma {:induction false} SplitOnWithout(s: string, c: char)
    requires Without(s, c)
    ensures SplitOn(s, c) == [s]
  {
    if s != "" {
      SplitOnWithout(s[1..], c);
      assert [s[0]] + s[1..] == s;
    }
  }

  /** A separator between two strings separates their parts. */
  lemma {:induction false} SplitOnJoined(a: string, b: string, c: char)
    ensures SplitOn(a + [c] + b, c) == SplitOn(a, c) + SplitOn(b, c)
    decreases |a|
  {
    var s := a + [c] + b;
    if a == "" {
      assert s[1..] == b;
    } else {
      assert s[1..] == a[1..] + [c] + b;
      SplitOnJoined(a[1..], b, c);
    }
  }

  // ---- Names on objects ----

  const PROTO := "__proto__"

  /** Names that every JavaScript object answers to without having the field. */
  const INHERITED_NAMES: set<string> := {
    "constructor", "toString", "valueOf", "toLocaleString", "hasOwnProperty", "isPrototypeOf",
    "propertyIsEnumerable", "__defineGetter__", "__defineSetter__", "__lookupGetter__", "__lookupSetter__", PROTO}

  predicate IsInherited(name: string) {
    name in INHERITED_NAMES
  }
}
