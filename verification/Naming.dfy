/** Checkpoint file names and the pattern that finds them again (src/common/command.cpp). */
module Naming {
  const INT_MAX: int := 0x7FFF_FFFF
  const ID_EC: int := -1
  const ID_AGG: int := -2

  predicate IsDigit(c: char) {
    '0' <= c <= '9'
  }

  predicate AllDigits(s: string) {
    forall i :: 0 <= i < |s| ==> IsDigit(s[i])
  }

  function DigitChar(d: nat): (c: char)
    requires d < 10
    ensures IsDigit(c) && c as int - '0' as int == d
  {
    (d + '0' as int) as char
  }

  /** `std::to_string` of a non-negative number. */
  function Digits(n: nat): (s: string)
    ensures s != [] && AllDigits(s)
  {
    (if n < 10 then [] else Digits(n / 10)) + [DigitChar(n % 10)]
  }

  /** `std::stoi` of a string of digits, before its range check. */
  function Value(s: string): (n: nat)
    requires AllDigits(s)
  {
    if s == [] then 0 else 10 * Value(s[..|s| - 1]) + (s[|s| - 1] as int - '0' as int)
  }

  lemma ValueSnoc(s: string, d: nat)
    requires AllDigits(s) && d < 10
    ensures AllDigits(s + [DigitChar(d)]) && Value(s + [DigitChar(d)]) == 10 * Value(s) + d
  {
    assert (s + [DigitChar(d)])[..|s|] == s;
  }

  lemma {:induction false} ValueOfDigits(n: nat)
    ensures Value(Digits(n)) == n
  {
    if n < 10 {
      ValueSnoc([], n);
      assert [] + [DigitChar(n)] == Digits(n);
    } else {
      ValueOfDigits(n / 10);
      hide Value, DigitChar, AllDigits;
      ValueSnoc(Digits(n / 10), n % 10);
    }
  }

  /** `validate_name` in src/lib/client.cpp. */
  predicate ValidChar(c: char) {
    'a' <= c <= 'z' || 'A' <= c <= 'Z' || IsDigit(c) || c == '_' || c == '.'
  }

  predicate ValidName(name: string) {
    name != [] && forall i :: 0 <= i < |name| ==> ValidChar(name[i])
  }

  /** A file name: checkpoint name, id, version, and what follows. */
  function Compose(name: string, id: string, version: string, rest: string): (s: string) {
    name + ("-" + (id + ("-" + (version + rest))))
  }

  function Stem(name: string, id: nat, version: nat): (s: string) {
    Compose(name, Digits(id), Digits(version), ".dat")
  }

  function ChecksumName(name: string, id: nat, version: nat): (s: string) {
    Stem(name, id, version) + ".chksum"
  }

  function AggName(name: string, version: nat): (s: string) {
    Compose(name, "agg", Digits(version), ".dat")
  }

  /** A regular-expression dot matches anything but a line terminator. */
  predicate Dotted(c: char) {
    c != '\n' && c != '\r' && c != '\U{2028}' && c != '\U{2029}'
  }

  /** `s` matches the name part of the pattern: a dot in the name is a wildcard. */
  predicate NameFits(name: string, s: string) {
    |s| == |name| && forall i :: 0 <= i < |s| ==> if name[i] == '.' then Dotted(s[i]) else s[i] == name[i]
  }

  predicate IdGroup(id: string) {
    (id != [] && AllDigits(id)) || id == "ec" || id == "agg"
  }

  predicate Suffix(rest: string) {
    (rest != [] ==> !IsDigit(rest[0])) && forall i :: 0 <= i < |rest| ==> Dotted(rest[i])
  }

  /** What the pattern `name-([0-9]+|ec|agg)-([0-9]+).*` captures in `str`; the second group is greedy. */
  ghost predicate Captures(name: string, str: string, n: string, id: string, version: string, rest: string) {
    && str == Compose(n, id, version, rest)
    && NameFits(name, n) && IdGroup(id) && version != [] && AllDigits(version) && Suffix(rest)
  }

  datatype MatchResult = NoMatch | Matched(id: int, version: int) | OutOfRange

  /** The out-parameters of `match` for the captured groups; `std::stoi` rejects values over `INT_MAX`. */
  function Groups(id: string, version: string): (r: MatchResult)
    requires IdGroup(id) && AllDigits(version)
  {
    var i := if id == "ec" then ID_EC else if id == "agg" then ID_AGG else Value(id);
    if i > INT_MAX || Value(version) > INT_MAX then OutOfRange else Matched(i, Value(version))
  }

  function IndexOf(s: string, c: char): (i: nat)
    ensures i <= |s| && (i < |s| ==> s[i] == c)
    ensures forall j :: 0 <= j < i ==> s[j] != c
  {
    if s == [] || s[0] == c then 0 else 1 + IndexOf(s[1..], c)
  }

  function DigitRun(s: string): (n: nat)
    ensures n <= |s| && AllDigits(s[..n]) && (n < |s| ==> !IsDigit(s[n]))
  {
    if s == [] || !IsDigit(s[0]) then 0 else 1 + DigitRun(s[1..])
  }

  function MatchGroups(t: string): (r: MatchResult) {
    var j := IndexOf(t, '-');
    if j == |t| then NoMatch else
    var id, u := t[..j], t[j + 1..];
    var d := DigitRun(u);
    if d == 0 || !IdGroup(id) || !Suffix(u[d..]) then NoMatch else Groups(id, u[..d])
  }

  /** `command_t::match` against `command_t::regex(name)`. */
  function Match(name: string, str: string): (r: MatchResult) {
    var k := |name|;
    if |str| <= k || str[k] != '-' || !NameFits(name, str[..k]) then NoMatch
    else MatchGroups(str[k + 1..])
  }

  lemma IndexAfter(a: string, c: char, b: string)
    requires c !in a
    ensures IndexOf(a + ([c] + b), c) == |a|
  {
    var s := a + ([c] + b);
    assert s[|a|] == c;
    assert forall j :: 0 <= j < |a| ==> s[j] == a[j];
  }

  lemma {:induction false} RunOf(v: string, rest: string)
    requires AllDigits(v) && Suffix(rest)
    ensures DigitRun(v + rest) == |v|
  {
    if v == [] {
      assert v + rest == rest;
    } else {
      RunOf(v[1..], rest);
      assert (v + rest)[1..] == v[1..] + rest;
    }
  }

  lemma IdHasNoDash(id: string)
    requires IdGroup(id)
    ensures '-' !in id
  {
  }

  lemma GroupsOf(id: string, version: string, rest: string)
    requires IdGroup(id) && version != [] && AllDigits(version) && Suffix(rest)
    ensures MatchGroups(id + ("-" + (version + rest))) == Groups(id, version)
  {
    hide IdGroup, Suffix, AllDigits, Groups, DigitRun, IndexOf;
    var u := version + rest;
    var t := id + ("-" + u);
    IdHasNoDash(id);
    IndexAfter(id, '-', u);
    RunOf(version, rest);
    assert t[..|id|] == id && t[|id| + 1..] == u;
    assert u[..|version|] == version && u[|version|..] == rest;
  }

  /** The groups the pattern describes are unique, and the parser finds them. */
  lemma MatchCaptures(name: string, str: string, n: string, id: string, version: string, rest: string)
    requires Captures(name, str, n, id, version, rest)
    ensures Match(name, str) == Groups(id, version)
  {
    hide IdGroup, Suffix, AllDigits, Groups, MatchGroups;
    var tail := id + ("-" + (version + rest));
    assert str[..|n|] == n && str[|n| + 1..] == tail;
    GroupsOf(id, version, rest);
  }

  lemma SplitAt(s: string, k: nat)
    requires k < |s|
    ensures s == s[..k] + ([s[k]] + s[k + 1..])
  {
  }

  lemma GroupsIn(t: string) returns (id: string, version: string, rest: string)
    requires MatchGroups(t) != NoMatch
    ensures t == id + ("-" + (version + rest))
    ensures IdGroup(id) && version != [] && AllDigits(version) && Suffix(rest)
  {
    hide IdGroup, Suffix, AllDigits, Groups, IndexOf, DigitRun;
    var j := IndexOf(t, '-');
    var u := t[j + 1..];
    var d := DigitRun(u);
    id, version, rest := t[..j], u[..d], u[d..];
    SplitAt(t, j);
    assert version + rest == u;
  }

  lemma CapturesOf(name: string, str: string) returns (n: string, id: string, version: string, rest: string)
    requires Match(name, str) != NoMatch
    ensures Captures(name, str, n, id, version, rest)
  {
    hide IdGroup, Suffix, AllDigits, Groups, MatchGroups, NameFits;
    n := str[..|name|];
    SplitAt(str, |name|);
    id, version, rest := GroupsIn(str[|name| + 1..]);
  }

  lemma CapturedGroups(name: string, str: string, n: string, id: string, version: string, rest: string)
    requires Captures(name, str, n, id, version, rest)
    ensures IdGroup(id) && AllDigits(version)
  {
  }

  /** `match` succeeds exactly on the strings the regular expression describes. */
  lemma MatchIff(name: string, str: string)
    ensures Match(name, str) != NoMatch <==> exists n, id, version, rest :: Captures(name, str, n, id, version, rest)
  {
    hide Captures, Match;
    if n, id, version, rest :| Captures(name, str, n, id, version, rest) {
      assert IdGroup(id) && AllDigits(version) by { CapturedGroups(name, str, n, id, version, rest); }
      MatchCaptures(name, str, n, id, version, rest);
    }
    if Match(name, str) != NoMatch {
      var n, id, version, rest := CapturesOf(name, str);
    }
  }

  lemma NameHasNoDash(name: string)
    requires ValidName(name)
    ensures '-' !in name
  {
  }

  lemma DigitsHaveNoDash(s: string)
    requires AllDigits(s)
    ensures '-' !in s
  {
  }

  lemma DigitsAreIds(n: nat)
    ensures IdGroup(Digits(n)) && Digits(n) != "ec" && Digits(n) != "agg"
  {
    assert IsDigit(Digits(n)[0]);
  }

  lemma NoGroups(t: string)
    requires '-' !in t
    ensures MatchGroups(t) == NoMatch
  {
  }

  /** A composed file name has exactly two dashes. */
  lemma KeyDashes(name: string, id: string, version: string, suffix: string)
    requires '-' !in name && '-' !in id && '-' !in version && '-' !in suffix
    ensures var s := Compose(name, id, version, suffix);
      forall k :: 0 <= k < |s| && s[k] == '-' ==> k == |name| || k == |name| + 1 + |id|
    ensures |Compose(name, id, version, suffix)| == |name| + 1 + |id| + 1 + |version| + |suffix|
  {
    var s := Compose(name, id, version, suffix);
    var p := |name| + 1 + |id|;
    forall k | 0 <= k < |s| && k != |name| && k != p ensures s[k] != '-' {
      if k < |name| { assert s[k] == name[k]; }
      else if k < p { assert s[k] == id[k - |name| - 1]; }
      else if k < p + 1 + |version| { assert s[k] == version[k - p - 1]; }
      else { assert s[k] == suffix[k - p - 1 - |version|]; }
    }
  }

  /** The pattern of `name` against a file of `other`: it matches exactly when the names agree up to
      wildcard dots, and then it reads back the id and the version. */
  lemma MatchKey(name: string, other: string, id: nat, version: nat, suffix: string)
    requires ValidName(name) && ValidName(other) && Suffix(suffix) && '-' !in suffix && id <= INT_MAX && version <= INT_MAX
    ensures Match(name, Compose(other, Digits(id), Digits(version), suffix))
         == if NameFits(name, other) then Matched(id, version) else NoMatch
  {
    hide Digits, Value;
    var i, v := Digits(id), Digits(version);
    assert IdGroup(i) && Groups(i, v) == Matched(id, version) by {
      DigitsAreIds(id);
      ValueOfDigits(id);
      ValueOfDigits(version);
    }
    NameHasNoDash(other);
    DigitsHaveNoDash(i);
    DigitsHaveNoDash(v);
    hide Groups, IdGroup, Suffix, AllDigits, MatchGroups, ValidName;
    var str := Compose(other, i, v, suffix);
    if NameFits(name, other) {
      MatchCaptures(name, str, other, i, v, suffix);
    } else {
      KeyDashes(other, i, v, suffix);
      assert str[..|other|] == other;
      var k := |name|;
      if k < |str| && str[k] == '-' && k != |other| {
        assert str[k + 1..] == v + suffix;
        NoGroups(v + suffix);
      }
    }
  }

  /** `match` inverts the checkpoint name and the checksum name. */
  lemma MatchInverts(name: string, id: nat, version: nat)
    requires ValidName(name) && id <= INT_MAX && version <= INT_MAX
    ensures Match(name, Stem(name, id, version)) == Matched(id, version)
    ensures Match(name, ChecksumName(name, id, version)) == Matched(id, version)
  {
    hide Match, Digits;
    MatchKey(name, name, id, version, ".dat");
    MatchKey(name, name, id, version, ".dat.chksum");
    assert ChecksumName(name, id, version) == Compose(name, Digits(id), Digits(version), ".dat.chksum");
  }

  lemma MatchAgg(name: string, version: nat)
    requires ValidName(name) && version <= INT_MAX
    ensures Match(name, AggName(name, version)) == Matched(ID_AGG, version)
  {
    hide Match, Digits, Value;
    ValueOfDigits(version);
    assert NameFits(name, name) && Groups("agg", Digits(version)) == Matched(ID_AGG, version);
    hide Groups, NameFits, ValidName;
    MatchCaptures(name, AggName(name, version), name, "agg", Digits(version), ".dat");
  }

  /** A string up to its first dash is determined by the whole. */
  lemma FirstField(a: string, b: string, a': string, b': string)
    requires '-' !in a && '-' !in a' && a + ("-" + b) == a' + ("-" + b')
    ensures a == a' && b == b'
  {
    IndexAfter(a, '-', b);
    IndexAfter(a', '-', b');
    var s, s' := a + ("-" + b), a' + ("-" + b');
    assert s[..|a|] == a && s'[..|a'|] == a';
    assert s[|a| + 1..] == b && s'[|a'| + 1..] == b';
  }

  /** Distinct checkpoints have distinct files. */
  lemma StemInjective(name: string, id: nat, version: nat, name': string, id': nat, version': nat)
    requires ValidName(name) && ValidName(name') && Stem(name, id, version) == Stem(name', id', version')
    ensures name == name' && id == id' && version == version'
  {
    var i, v, i', v' := Digits(id), Digits(version), Digits(id'), Digits(version');
    ValueOfDigits(id);
    ValueOfDigits(version);
    ValueOfDigits(id');
    ValueOfDigits(version');
    NameHasNoDash(name);
    NameHasNoDash(name');
    DigitsHaveNoDash(i);
    DigitsHaveNoDash(i');
    hide Digits, Value, ValidName, AllDigits;
    FirstField(name, i + ("-" + (v + ".dat")), name', i' + ("-" + (v' + ".dat")));
    FirstField(i, v + ".dat", i', v' + ".dat");
    assert (v + ".dat")[..|v + ".dat"| - 4] == v && (v' + ".dat")[..|v' + ".dat"| - 4] == v';
  }

  lemma ChecksumInjective(name: string, id: nat, version: nat, name': string, id': nat, version': nat)
    requires ValidName(name) && ValidName(name') && ChecksumName(name, id, version) == ChecksumName(name', id', version')
    ensures name == name' && id == id' && version == version'
  {
    hide Stem;
    var s, s' := Stem(name, id, version), Stem(name', id', version');
    assert (s + ".chksum")[..|s + ".chksum"| - 7] == s && (s' + ".chksum")[..|s' + ".chksum"| - 7] == s';
    StemInjective(name, id, version, name', id', version');
  }

  function EcName(name: string, version: nat, rest: string): (s: string) {
    Compose(name, "ec", Digits(version), rest)
  }

  lemma MatchEc(name: string, version: nat, rest: string)
    requires ValidName(name) && version <= INT_MAX && Suffix(rest)
    ensures Match(name, EcName(name, version, rest)) == Matched(ID_EC, version)
  {
    hide Match, Digits, Value;
    ValueOfDigits(version);
    assert NameFits(name, name) && Groups("ec", Digits(version)) == Matched(ID_EC, version);
    hide Groups, NameFits, ValidName, Suffix;
    MatchCaptures(name, EcName(name, version, rest), name, "ec", Digits(version), rest);
  }

  /** A name without dots matches nothing that starts with another name and a dash. */
  lemma OtherName(name: string, other: string, tail: string)
    requires ValidName(name) && ValidName(other) && '.' !in name && name != other
    ensures Match(name, other + ("-" + tail)) == NoMatch
  {
    NameHasNoDash(name);
    NameHasNoDash(other);
    hide ValidName, MatchGroups;
    var str, k := other + ("-" + tail), |name|;
    assert str[|other|] == '-' && str[..|other|] == other;
    assert forall i :: 0 <= i < |other| ==> str[i] == other[i];
    assert |name| == |other| ==> exists i :: 0 <= i < k && name[i] != other[i];
    assert forall i :: 0 <= i < k < |str| ==> str[..k][i] == str[i];
  }

  /** A name without dots finds its own files and no other name's. */
  lemma MatchesOwnFiles(name: string, other: string, id: nat, version: nat)
    requires ValidName(name) && ValidName(other) && '.' !in name && id <= INT_MAX && version <= INT_MAX
    ensures Match(name, Stem(other, id, version)) != NoMatch <==> name == other
  {
    MatchKey(name, other, id, version, ".dat");
    assert NameFits(name, other) <==> name == other;
  }

  /** A name with a dot can find another name's files. */
  lemma DotMatchesOther()
    ensures ValidName("a.b") && ValidName("axb")
    ensures Match("a.b", Stem("axb", 3, 7)) == Matched(3, 7)
  {
    MatchKey("a.b", "axb", 3, 7, ".dat");
  }
}
