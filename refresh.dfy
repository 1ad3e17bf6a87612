/** The pattern `^(\d?)\s?;\s?url=(.*)$` that the `content` attribute of a
    refresh directive is matched against (resource.go:142). In Go's RE2
    syntax `\d` is an ASCII digit, `\s` is one of tab, newline, form feed,
    carriage return and space, `.` is any character but a newline, and
    without the multi-line flag `^` and `$` are the ends of the text. The
    literal `url=` is case-sensitive. */
module Refresh {
  import opened Wrappers
  import opened Text

  /** `\s` of RE2. */
  predicate IsPatternSpace(c: char)
  {
    c == '\t' || c == '\n' || c == '\U{000C}' || c == '\r' || c == ' '
  }

  predicate AllPatternSpace(s: string)
  {
    forall i :: 0 <= i < |s| ==> IsPatternSpace(s[i])
  }

  /** How a matching text splits over the pattern: the delay (group 1), the
      optional white space on either side of the `;`, and the target
      (group 2). */
  datatype RefreshSyntax = RefreshSyntax(delay: string, before: string, after: string, url: string)

  /** The pieces each part of the pattern admits. */
  predicate WellFormed(m: RefreshSyntax)
  {
    && |m.delay| <= 1 && AllDigits(m.delay)
    && |m.before| <= 1 && AllPatternSpace(m.before)
    && |m.after| <= 1 && AllPatternSpace(m.after)
    && '\n' !in m.url
  }

  /** The text the pieces spell. */
  function Spell(m: RefreshSyntax): string
  {
    m.delay + (m.before + (";" + (m.after + ("url=" + m.url))))
  }

  /** How many characters (none or one) the greedy `\d?` takes at the front
      of `s`. */
  function DigitLength(s: string): (k: nat)
    ensures k <= 1 && k <= |s| && AllDigits(s[..k])
    ensures k == 1 <==> s != [] && IsDigit(s[0])
  {
    if s != [] && IsDigit(s[0]) then 1 else 0
  }

  /** How many characters (none or one) the greedy `\s?` takes at the front
      of `s`. */
  function SpaceLength(s: string): (k: nat)
    ensures k <= 1 && k <= |s| && AllPatternSpace(s[..k])
    ensures k == 1 <==> s != [] && IsPatternSpace(s[0])
  {
    if s != [] && IsPatternSpace(s[0]) then 1 else 0
  }

  /** The tail `\s?url=(.*)$` of the pattern, matched against what follows
      the `;`: the optional white space and the target. */
  function MatchTarget(r: string): (t: Option<(string, string)>)
    ensures t.Some? ==> t.value.0 + ("url=" + t.value.1) == r
    ensures t.Some? ==> |t.value.0| <= 1 && AllPatternSpace(t.value.0) && '\n' !in t.value.1
  {
    var a := SpaceLength(r);
    var rest := r[a..];
    if HasPrefix(rest, "url=") && '\n' !in rest[4..] then
      assert "url=" + rest[4..] == rest;
      assert r[..a] + rest == r;
      Some((r[..a], rest[4..]))
    else None
  }

  /** A text cut at `d`, `d + b` and a `;` after that is spelled by its
      pieces. */
  lemma SpellSplit(s: string, d: nat, b: nat, after: string, url: string)
    requires d + b < |s| && s[d + b] == ';'
    requires after + ("url=" + url) == s[d + b + 1..]
    ensures Spell(RefreshSyntax(s[..d], s[d..d + b], after, url)) == s
  {
    assert ";" + s[d + b + 1..] == s[d + b..];
    assert s[d..d + b] + s[d + b..] == s[d..];
    assert s[..d] + s[d..] == s;
  }

  /** `FindStringSubmatch` with the pattern: each optional item takes its
      character when it can; giving one back never helps, because the item
      after it cannot match that character, so the match is unique. */
  function MatchRefresh(s: string): (r: Option<RefreshSyntax>)
    ensures r.Some? ==> Spell(r.value) == s
  {
    var d := DigitLength(s);
    var b := SpaceLength(s[d..]);
    if d + b < |s| && s[d + b] == ';' then
      var t := MatchTarget(s[d + b + 1..]);
      if t.None? then None
      else
        SpellSplit(s, d, b, t.value.0, t.value.1);
        Some(RefreshSyntax(s[..d], s[d..d + b], t.value.0, t.value.1))
    else None
  }

  /** What `MatchRefresh` finds is a splitting the pattern admits. */
  lemma MatchWellFormed(s: string)
    ensures MatchRefresh(s).Some? ==> WellFormed(MatchRefresh(s).value)
  {
  }

  /** Every well-formed splitting is found again, so `MatchRefresh` succeeds
      exactly on the texts the pattern matches and recovers their groups. */
  lemma MatchSpelled(m: RefreshSyntax)
    requires WellFormed(m)
    ensures MatchRefresh(Spell(m)) == Some(m)
  {
    var r4 := "url=" + m.url;
    var r3 := m.after + r4;
    var r2 := ";" + r3;
    var r1 := m.before + r2;
    var s := m.delay + r1;
    assert s == Spell(m);
    assert r4[0] == 'u';
    assert r4[4..] == m.url;
    assert r3[|m.after|..] == r4 && r3[..|m.after|] == m.after;
    assert SpaceLength(r3) == |m.after|;
    assert r2[1..] == r3;
    assert r1[|m.before|..] == r2 && r1[..|m.before|] == m.before;
    assert r2[0] == ';';
    assert SpaceLength(r1) == |m.before|;
    assert s[|m.delay|..] == r1 && s[..|m.delay|] == m.delay;
    assert r1[0] == if m.before == [] then ';' else m.before[0];
    assert DigitLength(s) == |m.delay|;
  }

  /** A typical directive: the delay, white space after the `;`, and the
      target captured verbatim. */
  lemma MatchesPlainDirective()
    ensures MatchRefresh("5; url=/next?a=b") == Some(RefreshSyntax("5", "", " ", "/next?a=b"))
  {
    var m := RefreshSyntax("5", "", " ", "/next?a=b");
    assert Spell(m) == "5; url=/next?a=b";
    MatchSpelled(m);
  }

  /** Two delay digits do not match `\d?`. */
  lemma RejectsTwoDigits()
    ensures MatchRefresh("10;url=x").None?
  {
  }

  /** `url=` is case-sensitive. */
  lemma RejectsUpperCaseUrl()
    ensures MatchRefresh("0;URL=x").None?
  {
  }
}
