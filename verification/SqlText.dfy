/**
 * How SQL comment tags are written (the replacers of ddtrace/tracer/sqlcomment.go) and how the
 * sqlcommenter format reads them: percent-decoded, quoted values, in a comment that ends at its
 * first closing mark.
 */
module SqlText {
  import opened Common
  import Numerals

  // ---------------------------------------------------------------------
  // Replacers

  /** The replacements of keyReplacer. */
  function KeyRule(c: char): Option<string> {
    if c == ' ' then Some("%20")
    else if c == '!' then Some("%21")
    else if c == '#' then Some("%23")
    else if c == '$' then Some("%24")
    else if c == '%' then Some("%25")
    else if c == '&' then Some("%26")
    else if c == '\'' then Some("%27")
    else if c == '(' then Some("%28")
    else if c == ')' then Some("%29")
    else if c == '*' then Some("%2A")
    else if c == '+' then Some("%2B")
    else if c == ',' then Some("%2C")
    else if c == '/' then Some("%2F")
    else if c == ':' then Some("%3A")
    else if c == ';' then Some("%3B")
    else if c == '=' then Some("%3D")
    else if c == '?' then Some("%3F")
    else if c == '@' then Some("%40")
    else if c == '[' then Some("%5B")
    else if c == ']' then Some("%5D")
    else None
  }

  /** valueReplacer has the same rules and a last one for quotes; the first rule for a character wins. */
  function ValueRule(c: char): Option<string> {
    if KeyRule(c).Some? then KeyRule(c)
    else if c == '\'' then Some("\\'")
    else None
  }

  function Replaced(rule: char -> Option<string>, c: char): string {
    if rule(c).Some? then rule(c).value else [c]
  }

  function Replace(rule: char -> Option<string>, s: string): string {
    if s == [] then [] else Replaced(rule, s[0]) + Replace(rule, s[1..])
  }

  /** The escaping rule for quotes never applies: an earlier rule has percent-encoded them. */
  lemma QuoteRuleIsDead(c: char)
    ensures ValueRule(c) == KeyRule(c)
  {
  }

  // ---------------------------------------------------------------------
  // Reading

  function HexDigit(c: char): Option<nat> {
    var v := Numerals.DigitValue(c);
    if v.Some? && v.value < 16 then v else None
  }

  /** Percent-decoding of single bytes; anything that is not a percent triplet stands for itself. */
  function PercentDecode(s: string): string
    decreases |s|
  {
    if s == [] then []
    else if s[0] == '%' && |s| >= 3 && HexDigit(s[1]).Some? && HexDigit(s[2]).Some? then
      [(16 * HexDigit(s[1]).value + HexDigit(s[2]).value) as char] + PercentDecode(s[3..])
    else [s[0]] + PercentDecode(s[1..])
  }

  /** The characters that give the comment its structure. */
  predicate Structural(c: char) { c == '\'' || c == ',' || c == '=' || c == '*' || c == '/' }

  predicate NoStructure(s: string) { forall c :: c in s ==> !Structural(c) }

  predicate IsTriplet(r: string, c: char) {
    && |r| == 3 && r[0] == '%'
    && HexDigit(r[1]).Some? && HexDigit(r[2]).Some?
    && 16 * HexDigit(r[1]).value + HexDigit(r[2]).value == c as nat
    && !Structural(r[1]) && !Structural(r[2])
  }

  /** Every replacement is the percent triplet of its character. */
  lemma RuleIsTriplet(c: char)
    ensures KeyRule(c).Some? ==> IsTriplet(KeyRule(c).value, c)
    ensures KeyRule(c).None? ==> c != '%' && !Structural(c)
  {
  }

  /** Exactly these characters are replaced. */
  lemma ReplacedExactly(c: char)
    ensures KeyRule(c).Some? <==> c in " !#$%&'()*+,/:;=?@[]"
  {
    var reserved := " !#$%&'()*+,/:;=?@[]";
    assert |reserved| == 20;
    assert reserved[0] == ' ' && reserved[1] == '!' && reserved[2] == '#' && reserved[3] == '$' && reserved[4] == '%';
    assert reserved[5] == '&' && reserved[6] == '\'' && reserved[7] == '(' && reserved[8] == ')' && reserved[9] == '*';
    assert reserved[10] == '+' && reserved[11] == ',' && reserved[12] == '/' && reserved[13] == ':' && reserved[14] == ';';
    assert reserved[15] == '=' && reserved[16] == '?' && reserved[17] == '@' && reserved[18] == '[' && reserved[19] == ']';
  }

  lemma DecodeOne(c: char, rest: string)
    ensures PercentDecode(Replaced(KeyRule, c) + rest) == [c] + PercentDecode(rest)
    ensures NoStructure(Replaced(KeyRule, c)) && Replaced(KeyRule, c) != ""
  {
    hide KeyRule, HexDigit;
    RuleIsTriplet(c);
    var r := Replaced(KeyRule, c);
    var t := r + rest;
    if KeyRule(c).Some? {
      assert r == [r[0], r[1], r[2]];
      assert t[0] == r[0] && t[1] == r[1] && t[2] == r[2] && t[3..] == rest;
    } else {
      assert t[0] == c && t[1..] == rest;
    }
  }

  /** What is written has no structural character left and reads back as it was. */
  lemma {:induction false} ReplaceRoundTrip(s: string)
    ensures PercentDecode(Replace(KeyRule, s)) == s
    ensures NoStructure(Replace(KeyRule, s))
    ensures s != "" ==> Replace(KeyRule, s) != ""
  {
    hide KeyRule, PercentDecode, Structural;
    if s != [] {
      ReplaceRoundTrip(s[1..]);
      DecodeOne(s[0], Replace(KeyRule, s[1..]));
    } else {
      DecodeNothing();
    }
  }

  lemma DecodeNothing()
    ensures PercentDecode("") == ""
  {
  }

  lemma {:induction false} ReplaceValue(s: string)
    ensures Replace(ValueRule, s) == Replace(KeyRule, s)
  {
    hide KeyRule, ValueRule;
    if s != [] {
      QuoteRuleIsDead(s[0]);
      ReplaceValue(s[1..]);
    }
  }

  // ---------------------------------------------------------------------
  // The end of a comment

  predicate ClosesAt(s: string, i: nat) {
    i + 2 <= |s| && s[i] == '*' && s[i + 1] == '/'
  }

  /** The first closing mark of `s`, None when there is none. */
  function CommentEnd(s: string, from: nat): (r: Option<nat>)
    requires from <= |s|
    ensures r.Some? ==> from <= r.value && ClosesAt(s, r.value)
    ensures forall i: nat :: from <= i < |s| && ClosesAt(s, i) ==> r.Some? && r.value <= i
    decreases |s| - from
  {
    if ClosesAt(s, from) then Some(from)
    else if from == |s| then None
    else CommentEnd(s, from + 1)
  }

  /** A body without stars that does not start with a slash is closed by the mark written after it. */
  lemma BodyEndsItself(body: string, rest: string)
    requires body != "" && body[0] != '/' && '*' !in body
    ensures CommentEnd("/*" + body + "*/" + rest, 0) == Some(2 + |body|)
  {
    var s := "/*" + body + "*/" + rest;
    var e := 2 + |body|;
    assert s[0] == '/' && s[1] == '*' && s[e] == '*' && s[e + 1] == '/';
    assert forall i :: 0 <= i < |body| ==> s[2 + i] == body[i];
    assert ClosesAt(s, e);
    forall i: nat | i < e ensures !ClosesAt(s, i) {
      if i >= 2 {
        assert s[i] == body[i - 2];
      } else if i == 1 {
        assert s[2] == body[0];
      }
    }
  }
}
