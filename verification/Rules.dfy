/** Group-name normal form and the guards of the domain layer. */
module Rules {
  import opened Models
  import opened Text

  predicate AlphaNumeric(c: char) {
    'a' <= c <= 'z' || '0' <= c <= '9'
  }

  predicate NameChar(c: char) {
    AlphaNumeric(c) || c == '.' || c == '_' || c == '-'
  }

  /** The regular expressions the group-name pattern is built from. */
  datatype Regex =
    | OneOf(allowed: char -> bool)
    | Cat(left: Regex, right: Regex)
    | Maybe(inner: Regex)
    | Repeat(body: Regex, least: nat, most: nat)

  /** What it means for an expression to match a whole string: some way of cutting the string up works. */
  ghost predicate FullMatch(r: Regex, s: string)
    decreases r, 0
  {
    match r
    case OneOf(allowed) => |s| == 1 && allowed(s[0])
    case Cat(left, right) => exists k | 0 <= k <= |s| :: FullMatch(left, s[..k]) && FullMatch(right, s[k..])
    case Maybe(inner) => s == "" || FullMatch(inner, s)
    case Repeat(body, least, most) => RepeatMatch(body, least, most, s)
  }

  ghost predicate RepeatMatch(body: Regex, least: nat, most: nat, s: string)
    decreases body, 1 + most
  {
    || (least == 0 && s == "")
    || (most > 0 && exists k | 0 <= k <= |s| ::
          FullMatch(body, s[..k]) && RepeatMatch(body, if least == 0 then 0 else least - 1, most - 1, s[k..]))
  }

  const EDGE := OneOf(AlphaNumeric)
  const MIDDLE := Repeat(OneOf(NameChar), 0, 62)

  /** `^[a-z0-9](?:[a-z0-9._-]{0,62}[a-z0-9])?$`, applied with `fullmatch`. */
  const GROUP_NAME_PATTERN := Cat(EDGE, Maybe(Cat(MIDDLE, EDGE)))

  /** The closed form of the pattern: length, alphabet and edges. */
  predicate IsGroupName(s: string) {
    && 1 <= |s| <= 64
    && AlphaNumeric(s[0]) && AlphaNumeric(s[|s| - 1])
    && forall i | 0 <= i < |s| :: NameChar(s[i])
  }

  lemma {:induction false} RepeatClosedForm(most: nat, s: string)
    ensures RepeatMatch(OneOf(NameChar), 0, most, s) <==> |s| <= most && forall i | 0 <= i < |s| :: NameChar(s[i])
  {
    var body := OneOf(NameChar);
    if most > 0 && s != "" {
      RepeatClosedForm(most - 1, s[1..]);
      assert s == [s[0]] + s[1..];
      if RepeatMatch(body, 0, most, s) {
        var k :| 0 <= k <= |s| && FullMatch(body, s[..k]) && RepeatMatch(body, 0, most - 1, s[k..]);
        assert k == 1 && s[..k][0] == s[0];
      }
      if |s| <= most && forall i | 0 <= i < |s| :: NameChar(s[i]) {
        assert FullMatch(body, s[..1]);
        assert RepeatMatch(body, 0, most - 1, s[1..]);
      }
    }
  }

  lemma InnerClosedForm(s: string)
    ensures FullMatch(Cat(MIDDLE, EDGE), s)
       <==> 1 <= |s| <= 63 && AlphaNumeric(s[|s| - 1]) && forall i | 0 <= i < |s| - 1 :: NameChar(s[i])
  {
    if s != "" {
      RepeatClosedForm(62, s[..|s| - 1]);
      assert s[|s| - 1..] == [s[|s| - 1]];
    }
    if FullMatch(Cat(MIDDLE, EDGE), s) {
      var k :| 0 <= k <= |s| && FullMatch(MIDDLE, s[..k]) && FullMatch(EDGE, s[k..]);
      assert k == |s| - 1;
    }
    if 1 <= |s| <= 63 && AlphaNumeric(s[|s| - 1]) && forall i | 0 <= i < |s| - 1 :: NameChar(s[i]) {
      assert FullMatch(MIDDLE, s[..|s| - 1]) && FullMatch(EDGE, s[|s| - 1..]);
    }
  }

  /** The pattern accepts exactly the closed form. */
  lemma PatternClosedForm(s: string)
    ensures FullMatch(GROUP_NAME_PATTERN, s) <==> IsGroupName(s)
  {
    if s != "" {
      InnerClosedForm(s[1..]);
      assert s[..1] == [s[0]];
      assert forall i | 0 <= i < |s| - 1 :: s[1..][i] == s[i + 1];
      assert s[1..] != "" ==> s[1..][|s[1..]| - 1] == s[|s| - 1];
    }
    if FullMatch(GROUP_NAME_PATTERN, s) {
      var k :| 0 <= k <= |s| && FullMatch(EDGE, s[..k]) && FullMatch(Maybe(Cat(MIDDLE, EDGE)), s[k..]);
      assert k == 1;
      assert AlphaNumeric(s[0]);
      if s[1..] != "" {
        forall i | 0 <= i < |s| ensures NameChar(s[i]) {
          assert 0 < i < |s| - 1 ==> s[i] == s[1..][i - 1];
        }
      }
    }
    if IsGroupName(s) {
      assert FullMatch(EDGE, s[..1]);
      assert FullMatch(Maybe(Cat(MIDDLE, EDGE)), s[1..]);
    }
  }

  function NormalizeGroupName(name: string): Result<string> {
    var normalized := Lower(Strip(name));
    if IsGroupName(normalized) then Ok(normalized) else Err(InvalidValue)
  }

  /** `g` is `s` in lower case, letter by letter, as far as the letters of group names go. */
  predicate LowerCaseOf(s: string, g: string) {
    && |s| == |g|
    && forall k | 0 <= k < |s| ::
         || s[k] == g[k]
         || ('a' <= g[k] <= 'z' && s[k] as int + 32 == g[k] as int)
         || (g[k] == 'k' && s[k] == '\U{212a}')
  }

  /** A name in any spelling: the group name with letters of either case and whitespace around it. */
  ghost predicate Spells(name: string, g: string) {
    && IsGroupName(g)
    && exists i, j | 0 <= i <= j <= |name| ::
         LowerCaseOf(name[i..j], g) && forall k | 0 <= k < i || j <= k < |name| :: IsSpace(name[k])
  }

  lemma LowerCaseIff(s: string, g: string)
    requires IsGroupName(g)
    ensures LowerCaseOf(s, g) <==> Lower(s) == g
  {
    forall k | 0 <= k < |g| ensures NameChar(g[k]) {}
    if LowerCaseOf(s, g) {
      forall k | 0 <= k < |s| ensures LowerChar(s[k]) == g[k] {
        assert NameChar(g[k]);
      }
    }
  }

  lemma InkAtEdges(s: string, g: string)
    requires IsGroupName(g) && LowerCaseOf(s, g)
    ensures s != "" && !IsSpace(s[0]) && !IsSpace(s[|s| - 1])
  {
    assert AlphaNumeric(g[0]) && AlphaNumeric(g[|g| - 1]);
  }

  /** There is one way to cut the whitespace off at both ends. */
  lemma StripIs(s: string, a: nat, b: nat)
    requires a < b <= |s| && !IsSpace(s[a]) && !IsSpace(s[b - 1])
    requires forall k | 0 <= k < a || b <= k < |s| :: IsSpace(s[k])
    ensures Strip(s) == s[a..b]
  {
    var i, j := StripCuts(s);
    assert i <= a && b <= j;
    assert Strip(s)[0] == s[i] && Strip(s)[j - i - 1] == s[j - 1];
  }

  /** Normalization finds the group a name spells, and nothing else. */
  lemma NormalizeIff(name: string, g: string)
    ensures NormalizeGroupName(name) == Ok(g) <==> Spells(name, g)
  {
    hide IsGroupName, Lower, LowerCaseOf, IsSpace;
    if NormalizeGroupName(name) == Ok(g) {
      var i, j := StripCuts(name);
      LowerCaseIff(name[i..j], g);
    }
    if Spells(name, g) {
      var a, b :| 0 <= a <= b <= |name| && LowerCaseOf(name[a..b], g)
                  && forall k | 0 <= k < a || b <= k < |name| :: IsSpace(name[k]);
      InkAtEdges(name[a..b], g);
      assert name[a..b][0] == name[a] && name[a..b][b - a - 1] == name[b - 1];
      StripIs(name, a, b);
      LowerCaseIff(name[a..b], g);
    }
  }

  /** Names in normal form are exactly the fixed points of normalization. */
  lemma NormalFormFixed(name: string)
    ensures NormalizeGroupName(name) == Ok(name) <==> IsGroupName(name)
  {
    if IsGroupName(name) {
      StripTrimmed(name);
      assert Lower(name) == name by {
        forall i | 0 <= i < |name| ensures LowerChar(name[i]) == name[i] {
          assert NameChar(name[i]);
        }
      }
    }
  }

  /** Normalizing an accepted name again changes nothing. */
  lemma NormalizeIdempotent(name: string)
    requires NormalizeGroupName(name).Ok?
    ensures NormalizeGroupName(NormalizeGroupName(name).value) == NormalizeGroupName(name)
  {
    NormalFormFixed(NormalizeGroupName(name).value);
  }

  function IsReservedGroup(name: string): Result<bool> {
    var normalized :- NormalizeGroupName(name);
    Ok(normalized == RESERVED_ADMIN_GROUP)
  }

  lemma AdminIsNormal()
    ensures IsGroupName(RESERVED_ADMIN_GROUP)
  {
  }

  function ReservedAdminGroup(now: Time): GroupDefinition {
    GroupDefinition(RESERVED_ADMIN_GROUP, Some("Reserved control-plane administrators"), true, true, now)
  }

  function EnsureAdminMembershipRemains(memberCount: int): Result<()> {
    if memberCount <= 0 then Err(LastAdminRemoval) else Ok(())
  }

  /** Normalize every name, failing on the first bad one. */
  function NormalizeAll(groups: seq<string>): (r: Result<seq<string>>)
    ensures r.Ok? ==> |r.value| == |groups|
    ensures r.Ok? ==> forall i | 0 <= i < |groups| :: NormalizeGroupName(groups[i]) == Ok(r.value[i])
    ensures r.Err? ==> r.error == InvalidValue && exists i | 0 <= i < |groups| :: NormalizeGroupName(groups[i]).Err?
  {
    if groups == [] then Ok([])
    else
      var head := NormalizeGroupName(groups[0]);
      if head.Err? then Err(head.error)
      else
        var tail := NormalizeAll(groups[1..]);
        if tail.Err? then Err(tail.error) else Ok([head.value] + tail.value)
  }

  function EnsureRuntimeGroupsAllowed(groups: seq<string>): Result<seq<string>> {
    var normalized :- NormalizeAll(groups);
    if RESERVED_ADMIN_GROUP in normalized then Err(ReservedGroup) else Ok(normalized)
  }

  /** Names that normalize are usable as one path segment. */
  lemma GroupNamesAreSegments(name: string)
    requires IsGroupName(name)
    ensures name != "" && '/' !in name
  {
  }
}
