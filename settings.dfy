/** The configuration parsers: `_parse_bool`, `_parse_static_rewrites`,
    `_parse_exclude_patterns` and `_is_domain_excluded`. */
module Settings {
  import opened Strings
  import opened Classify

  datatype Option<T> = None | Some(value: T)

  // ---------------------------------------------------------------------
  // `_parse_bool`

  /** A setting value as read from YAML or the environment. A value of any
      other type (a float, a list) is carried as the text Python's `str`
      gives it. */
  datatype Setting = Null | Flag(b: bool) | Int(n: int) | Text(s: string) | Other(repr: string)

  const TrueWords: set<string> := {"1", "true", "yes", "y", "on"}

  function Digit(d: nat): (c: char)
    requires d < 10
    ensures '0' <= c <= '9'
  {
    ('0' as int + d) as char
  }

  /** Python's `str` of a non-negative integer. */
  function Decimal(n: nat): (s: string)
    ensures |s| >= 1
    ensures forall c :: c in s ==> '0' <= c <= '9'
    ensures |s| == 1 <==> n < 10
  {
    if n < 10 then [Digit(n)] else Decimal(n / 10) + [Digit(n % 10)]
  }

  /** Python's `str` of an integer. */
  function IntText(n: int): string
  {
    if n < 0 then "-" + Decimal(-n) else Decimal(n)
  }

  /** `_parse_bool`: `None` gives the default, a bool itself, anything else
      is true when its text, trimmed and lower-cased, is one of the words. */
  function ParseBool(v: Setting, dflt: bool): (b: bool)
  {
    match v
    case Null => dflt
    case Flag(x) => x
    case Int(n) => Lower(Trim(IntText(n))) in TrueWords
    case Text(s) => Lower(Trim(s)) in TrueWords
    case Other(r) => Lower(Trim(r)) in TrueWords
  }

  /** A string with neither white space nor upper-case letters is its own
      trimmed, lower-cased form. */
  lemma PlainIsNormal(s: string)
    requires forall c :: c in s ==> !IsSpace(c) && !('A' <= c <= 'Z')
    ensures Lower(Trim(s)) == s
  {
    PlainTrim(s);
    PlainLower(s);
  }

  lemma PlainTrim(s: string)
    requires forall c :: c in s ==> !IsSpace(c)
    ensures Trim(s) == s
  {
    if s != [] {
      assert s[0] in s && s[|s| - 1] in s;
    }
    TrimUnchanged(s);
  }

  lemma PlainLower(s: string)
    requires forall c :: c in s ==> !('A' <= c <= 'Z')
    ensures Lower(s) == s
  {
    forall k | 0 <= k < |s| ensures !('A' <= s[k] <= 'Z') {
      assert s[k] in s;
    }
    LowerUnchanged(s);
  }

  lemma IntTextDigits(n: int)
    ensures forall c :: c in IntText(n) ==> c == '-' || '0' <= c <= '9'
  {
    if n < 0 {
      assert IntText(n) == "-" + Decimal(-n);
    }
  }

  lemma IntTextNotOne(n: int)
    ensures IntText(n) != []
    ensures n == 1 <==> IntText(n) == "1"
  {
    var t := IntText(n);
    if n < 0 {
      assert t[0] == '-';
    } else if n >= 10 {
      assert |t| > 1;
    } else {
      assert t == [Digit(n)];
    }
  }

  lemma NotALetterWord(t: string)
    requires t != [] && t[0] != 't' && t[0] != 'y' && t[0] != 'o' && t != "1"
    ensures t !in TrueWords
  {
  }

  /** Python's `str` of an integer reads as true exactly for 1. */
  lemma IntReadsTrue(n: int)
    ensures Lower(Trim(IntText(n))) in TrueWords <==> n == 1
  {
    var t := IntText(n);
    IntTextDigits(n);
    PlainIsNormal(t);
    IntTextNotOne(n);
    if n != 1 {
      assert t[0] in t;
      NotALetterWord(t);
    }
  }

  /** Of the integers only 1 reads as true; any other setting follows the
      three rules of `_parse_bool`. */
  lemma ParseBoolCases(v: Setting, dflt: bool)
    ensures v.Null? ==> ParseBool(v, dflt) == dflt
    ensures v.Flag? ==> ParseBool(v, dflt) == v.b
    ensures v.Int? ==> (ParseBool(v, dflt) <==> v.n == 1)
    ensures v.Text? ==> (ParseBool(v, dflt) <==> Lower(Trim(v.s)) in TrueWords)
    ensures v.Other? ==> (ParseBool(v, dflt) <==> Lower(Trim(v.repr)) in TrueWords)
  {
    if v.Int? {
      IntReadsTrue(v.n);
    }
  }

  /** Surrounding blanks and case do not matter: " Yes " reads as true. */
  lemma ParseBoolPadded()
    ensures ParseBool(Text(" Yes "), false)
  {
    assert TrimLeft(" Yes ") == "Yes " by {
      assert IsSpace(' ') && !IsSpace('Y');
      assert " Yes "[1..] == "Yes ";
    }
    assert TrimRight("Yes ") == "Yes" by {
      assert !IsSpace('s');
      assert "Yes "[..3] == "Yes";
    }
    assert Lower("Yes") == "yes";
  }

  /** The float `1.0` reads as false whatever the default: its text is "1.0". */
  lemma FloatOneIsFalse(dflt: bool)
    ensures !ParseBool(Other("1.0"), dflt)
  {
    PlainIsNormal("1.0");
  }

  /** "off" reads as false whatever the default. */
  lemma ParseBoolOff(dflt: bool)
    ensures !ParseBool(Text("off"), dflt)
  {
    PlainIsNormal("off");
  }

  // ---------------------------------------------------------------------
  // `_parse_static_rewrites`: a dict kept in insertion order.

  datatype Rewrite = Rewrite(domain: string, answer: string)

  /** An insertion-ordered dictionary from domain to answer. */
  type Rewrites = seq<Rewrite>

  predicate DistinctDomains(m: Rewrites)
  {
    forall i, j :: 0 <= i < j < |m| ==> m[i].domain != m[j].domain
  }

  function Get(m: Rewrites, d: string): (r: Option<string>)
    ensures r.None? <==> forall i :: 0 <= i < |m| ==> m[i].domain != d
    ensures r.Some? ==> Rewrite(d, r.value) in m
  {
    if m == [] then None
    else if m[0].domain == d then Some(m[0].answer)
    else Get(m[1..], d)
  }

  /** `parsed[d] = a`: a new domain goes last, a known one keeps its place. */
  function Put(m: Rewrites, d: string, a: string): (r: Rewrites)
    requires DistinctDomains(m)
    ensures DistinctDomains(r)
    ensures Get(r, d) == Some(a)
    ensures forall e :: e != d ==> Get(r, e) == Get(m, e)
    ensures forall x :: x in r ==> x in m || x == Rewrite(d, a)
  {
    if m == [] then [Rewrite(d, a)]
    else if m[0].domain == d then
      TailAvoidsHead(m, m[1..]);
      HeadDistinct(Rewrite(d, a), m[1..]);
      [Rewrite(d, a)] + m[1..]
    else
      var rest := Put(m[1..], d, a);
      TailAvoidsHead(m, rest);
      HeadDistinct(m[0], rest);
      [m[0]] + rest
  }

  /** Entries drawn from the tail of distinct entries (or carrying another
      domain) avoid the head's domain. */
  lemma TailAvoidsHead(m: Rewrites, rest: Rewrites)
    requires m != [] && DistinctDomains(m)
    requires forall x :: x in rest ==> x in m[1..] || x.domain != m[0].domain
    ensures forall x :: x in rest ==> x.domain != m[0].domain
  {
    forall x | x in rest && x in m[1..] ensures x.domain != m[0].domain {
      var k :| 0 <= k < |m[1..]| && m[1..][k] == x;
      assert m[k + 1] == x;
    }
  }

  /** Putting a fresh domain in front of distinct ones keeps them distinct. */
  lemma HeadDistinct(x: Rewrite, rest: Rewrites)
    requires DistinctDomains(rest)
    requires forall y :: y in rest ==> y.domain != x.domain
    ensures DistinctDomains([x] + rest)
  {
    var r := [x] + rest;
    forall i, j | 0 <= i < j < |r| ensures r[i].domain != r[j].domain {
      assert r[j] == rest[j - 1];
      if i > 0 {
        assert r[i] == rest[i - 1];
      } else {
        assert rest[j - 1] in rest;
      }
    }
  }

  /** What one trimmed item contributes, if anything. */
  function ItemRewrite(item: string, defaultIp: string): (r: Option<Rewrite>)
    ensures r.Some? ==> r.value.domain != []
  {
    if item == [] then None
    else if '=' in item then
      var i := IndexOf(item, '=');
      var domain := Trim(item[..i]);
      var answer := Trim(item[i + 1..]);
      if domain == [] then None
      else if answer == [] || Lower(answer) == "true" then Some(Rewrite(domain, defaultIp))
      else Some(Rewrite(domain, answer))
    else Some(Rewrite(item, defaultIp))
  }

  /** The answer the last item naming `d` assigns to it: the reference
      meaning of the loop, read from the end. */
  function Assigned(items: seq<string>, d: string, defaultIp: string): (r: Option<string>)
    ensures d == [] ==> r == None
  {
    if items == [] then None
    else
      var r := ItemRewrite(Trim(items[|items| - 1]), defaultIp);
      if r.Some? && r.value.domain == d then Some(r.value.answer)
      else Assigned(items[..|items| - 1], d, defaultIp)
  }

  /** The loop over the comma-separated items, starting from `acc`. */
  function Collect(items: seq<string>, defaultIp: string, acc: Rewrites): (r: Rewrites)
    requires DistinctDomains(acc)
    ensures DistinctDomains(r)
    decreases |items|
  {
    if items == [] then acc
    else
      var next := ItemRewrite(Trim(items[0]), defaultIp);
      var acc' := if next.Some? then Put(acc, next.value.domain, next.value.answer) else acc;
      Collect(items[1..], defaultIp, acc')
  }

  /** `Collect` ends with the last answer each domain was given. */
  lemma {:induction false} CollectAssigns(items: seq<string>, defaultIp: string, acc: Rewrites, d: string)
    requires DistinctDomains(acc)
    ensures Get(Collect(items, defaultIp, acc), d) ==
      (if Assigned(items, d, defaultIp).Some? then Assigned(items, d, defaultIp) else Get(acc, d))
    decreases |items|
  {
    if items != [] {
      var next := ItemRewrite(Trim(items[0]), defaultIp);
      var acc' := if next.Some? then Put(acc, next.value.domain, next.value.answer) else acc;
      CollectAssigns(items[1..], defaultIp, acc', d);
      AssignedFirst(items, d, defaultIp);
    }
  }

  /** Reading `Assigned` from the front: the rest decides, else the first item. */
  lemma {:induction false} AssignedFirst(items: seq<string>, d: string, defaultIp: string)
    requires items != []
    ensures Assigned(items, d, defaultIp) ==
      (if Assigned(items[1..], d, defaultIp).Some? then Assigned(items[1..], d, defaultIp)
       else
         var r := ItemRewrite(Trim(items[0]), defaultIp);
         if r.Some? && r.value.domain == d then Some(r.value.answer) else None)
    decreases |items|
  {
    if |items| > 1 {
      var init := items[..|items| - 1];
      assert init[1..] == items[1..][..|items[1..]| - 1];
      assert items[1..][|items[1..]| - 1] == items[|items| - 1];
      assert init[0] == items[0];
      AssignedFirst(init, d, defaultIp);
    } else {
      assert items[..0] == [];
      assert items[1..] == [];
    }
  }

  /** The final comprehension: keep the entries whose domain and answer are
      both non-empty, in order. */
  function NonEmptyEntries(m: Rewrites): (r: Rewrites)
    ensures forall x :: x in r <==> x in m && x.domain != [] && x.answer != []
    ensures |r| <= |m|
  {
    if m == [] then []
    else if m[0].domain != [] && m[0].answer != [] then [m[0]] + NonEmptyEntries(m[1..])
    else NonEmptyEntries(m[1..])
  }

  function NonEmptyAnswer(a: Option<string>): Option<string>
  {
    if a.Some? && a.value != [] then a else None
  }

  /** `_parse_static_rewrites`: every domain once, no empty domain or
      answer, and each domain mapped to the answer the last item naming it
      gives (when that answer is non-empty). */
  function ParseStaticRewrites(value: string, defaultIp: string): (r: Rewrites)
    ensures DistinctDomains(r)
    ensures forall x :: x in r ==> x.domain != [] && x.answer != []
    ensures forall d :: Get(r, d) == NonEmptyAnswer(Assigned(Split(value, ','), d, defaultIp))
  {
    if value == [] then
      assert Split(value, ',') == [[]];
      assert forall d :: Assigned([[]], d, defaultIp) == None by {
        assert Trim([]) == [];
      }
      []
    else
      var items := Split(value, ',');
      var all := Collect(items, defaultIp, []);
      FilterKeepsDistinct(all);
      CollectedLookup(items, defaultIp);
      NonEmptyEntries(all)
  }

  lemma CollectedLookup(items: seq<string>, defaultIp: string)
    ensures forall d :: Get(NonEmptyEntries(Collect(items, defaultIp, [])), d) == NonEmptyAnswer(Assigned(items, d, defaultIp))
  {
    var all := Collect(items, defaultIp, []);
    forall d ensures Get(NonEmptyEntries(all), d) == NonEmptyAnswer(Assigned(items, d, defaultIp)) {
      if d != [] {
        CollectAssigns(items, defaultIp, [], d);
        FilterLookup(all, d);
      } else {
        NoEmptyDomain(NonEmptyEntries(all));
      }
    }
  }

  lemma NoEmptyDomain(m: Rewrites)
    requires forall x :: x in m ==> x.domain != []
    ensures Get(m, []) == None
  {
  }

  lemma {:induction false} FilterKeepsDistinct(m: Rewrites)
    requires DistinctDomains(m)
    ensures DistinctDomains(NonEmptyEntries(m))
  {
    if m != [] {
      FilterKeepsDistinct(m[1..]);
      var rest := NonEmptyEntries(m[1..]);
      forall x | x in rest ensures x.domain != m[0].domain {
        var k :| 0 <= k < |m[1..]| && m[1..][k] == x;
        assert m[k + 1] == x;
      }
    }
  }

  lemma {:induction false} FilterLookup(m: Rewrites, d: string)
    requires DistinctDomains(m) && d != []
    ensures Get(NonEmptyEntries(m), d) == NonEmptyAnswer(Get(m, d))
  {
    if m != [] {
      FilterLookup(m[1..], d);
      if m[0].domain == d && !(m[0].domain != [] && m[0].answer != []) {
        forall i | 0 <= i < |m[1..]| ensures m[1..][i].domain != d {
          assert m[i + 1].domain != m[0].domain;
        }
      }
    }
  }

  /** A domain alone maps to the default address. */
  lemma BareDomainGetsDefault(d: string, defaultIp: string)
    requires d != [] && '=' !in d && Trim(d) == d
    ensures ItemRewrite(d, defaultIp) == Some(Rewrite(d, defaultIp))
  {
  }

  /** `d=`, `d=true` (in any case) map to the default address, `d=x` to `x`
      as trimmed; a blank domain before `=` makes the item count for nothing. */
  lemma AssignmentForms(d: string, a: string, defaultIp: string)
    requires '=' !in d && Trim(d + "=" + a) == d + "=" + a
    ensures Trim(d) == [] ==> ItemRewrite(d + "=" + a, defaultIp) == None
    ensures Trim(d) != [] && (Trim(a) == [] || Lower(Trim(a)) == "true") ==>
      ItemRewrite(d + "=" + a, defaultIp) == Some(Rewrite(Trim(d), defaultIp))
    ensures Trim(d) != [] && Trim(a) != [] && Lower(Trim(a)) != "true" ==>
      ItemRewrite(d + "=" + a, defaultIp) == Some(Rewrite(Trim(d), Trim(a)))
  {
    var item := d + "=" + a;
    assert item[|d|] == '=' && item[..|d|] == d && item[|d| + 1..] == a;
    assert '=' in item;
    assert IndexOf(item, '=') == |d|;
  }

  /** With an empty default address a bare domain yields nothing. */
  lemma EmptyDefaultDropsBareDomain(d: string)
    requires d != [] && '=' !in d && ',' !in d && Trim(d) == d
    ensures ParseStaticRewrites(d, "") == []
  {
    assert Split(d, ',') == [d];
    var r := ParseStaticRewrites(d, "");
    assert ItemRewrite(Trim(d), "") == Some(Rewrite(d, ""));
    forall e ensures Get(r, e) == None {
      OneItemAssigned(d, e, "");
    }
    NothingFoundIsEmpty(r);
  }

  /** A single item assigns only the domain it names. */
  lemma OneItemAssigned(item: string, d: string, defaultIp: string)
    ensures Assigned([item], d, defaultIp) ==
      (var r := ItemRewrite(Trim(item), defaultIp);
       if r.Some? && r.value.domain == d then Some(r.value.answer) else None)
  {
    assert [item][..0] == [];
  }

  /** A table in which no domain is found is empty. */
  lemma NothingFoundIsEmpty(m: Rewrites)
    requires forall e :: Get(m, e) == None
    ensures m == []
  {
    assert m == [] || Get(m, m[0].domain).Some?;
  }

  /** A later item for the same domain overrides an earlier one. */
  lemma LaterItemWins(value: string, d: string, a: string, defaultIp: string)
    requires d != [] && Trim(d) == d && '=' !in d && ',' !in d
    requires a != [] && Trim(a) == a && Lower(a) != "true" && ',' !in a
    ensures Get(ParseStaticRewrites(value + "," + d + "=" + a, defaultIp), d) == Some(a)
  {
    var item := d + "=" + a;
    assert ',' !in item;
    assert value + "," + d + "=" + a == value + "," + item;
    SplitAppend(value, item);
    AssignmentTrimmed(d, a);
    AssignmentForms(d, a, defaultIp);
    LastItemAssigns(Split(value, ','), item, d, a, defaultIp);
  }

  /** `d=a` with both sides trimmed and non-empty is its own strip. */
  lemma AssignmentTrimmed(d: string, a: string)
    requires d != [] && Trim(d) == d && a != [] && Trim(a) == a
    ensures Trim(d + "=" + a) == d + "=" + a
  {
    var item := d + "=" + a;
    assert item[0] == d[0] && item[|item| - 1] == a[|a| - 1];
    TrimUnchanged(item);
  }

  /** The last item decides the answer of the domain it names. */
  lemma LastItemAssigns(init: seq<string>, item: string, d: string, a: string, defaultIp: string)
    requires Trim(item) == item && ItemRewrite(item, defaultIp) == Some(Rewrite(d, a))
    ensures Assigned(init + [item], d, defaultIp) == Some(a)
  {
    var items := init + [item];
    assert items[|items| - 1] == item;
  }

  /** Appending `,item` to a string appends `item` to its pieces. */
  lemma SplitAppend(value: string, item: string)
    requires ',' !in item
    ensures Split(value + "," + item, ',') == Split(value, ',') + [item]
  {
    var pieces := Split(value, ',') + [item];
    JoinSplit(value, ',');
    assert Join(pieces, ',') == value + "," + item by {
      JoinAppend(Split(value, ','), item, ',');
    }
    SplitJoin(pieces, ',');
  }

  lemma {:induction false} JoinAppend(pieces: seq<string>, item: string, sep: char)
    requires |pieces| >= 1
    ensures Join(pieces + [item], sep) == Join(pieces, sep) + [sep] + item
  {
    if |pieces| > 1 {
      JoinAppend(pieces[1..], item, sep);
      assert (pieces + [item])[1..] == pieces[1..] + [item];
    } else {
      assert (pieces + [item])[1..] == [item];
    }
  }

  // ---------------------------------------------------------------------
  // `_parse_exclude_patterns` and `_is_domain_excluded`.

  /** The pieces of a compiled exclusion expression between `^` and `$`:
      one literal character (case-insensitive), `.` and `.*`. */
  datatype Token = Lit(c: char) | AnyOne | AnyRun

  /** A compiled exclusion: an anchored expression built from an exact or
      wildcard item, or a user regular expression kept as its source. */
  datatype Exclusion = Anchored(tokens: seq<Token>) | UserRegex(source: string)

  /** The exclusion setting: absent, a comma-separated string, a list (each
      item already rendered with `str`), or any other value. */
  datatype PatternsValue = Unset | Csv(s: string) | Items(items: seq<string>) | OtherValue

  /** `^re.escape(item)$`. */
  function ExactTokens(item: string): (ts: seq<Token>)
    ensures |ts| == |item| && forall i :: 0 <= i < |item| ==> ts[i] == Lit(item[i])
  {
    if item == [] then [] else [Lit(item[0])] + ExactTokens(item[1..])
  }

  /** `re.escape(item)` with `\*` turned into `.*` and `\?` into `.`. */
  function WildcardTokens(item: string): (ts: seq<Token>)
    ensures |ts| == |item|
  {
    if item == [] then []
    else
      var t := if item[0] == '*' then AnyRun else if item[0] == '?' then AnyOne else Lit(item[0]);
      [t] + WildcardTokens(item[1..])
  }

  /** The tokens match the whole of `s`, ignoring case, without letting
      `.` match a newline. */
  predicate TokensMatch(ts: seq<Token>, s: string)
    decreases |ts| + |s|
  {
    if ts == [] then s == []
    else match ts[0]
      case AnyRun => TokensMatch(ts[1..], s) || (s != [] && s[0] != '\n' && TokensMatch(ts, s[1..]))
      case AnyOne => s != [] && s[0] != '\n' && TokensMatch(ts[1..], s[1..])
      case Lit(c) => s != [] && LowerChar(c) == LowerChar(s[0]) && TokensMatch(ts[1..], s[1..])
  }

  /** `search` of `^tokens$`: a match from the start up to a `$` position. */
  predicate AnchoredSearch(ts: seq<Token>, d: string)
  {
    exists e :: 0 <= e <= |d| && DollarAt(d, e) && TokensMatch(ts, d[..e])
  }

  /** `$` admits the whole string or all but a final newline. */
  lemma AnchoredSearchEnds(ts: seq<Token>, d: string)
    ensures AnchoredSearch(ts, d) <==>
      TokensMatch(ts, d) || (d != [] && d[|d| - 1] == '\n' && TokensMatch(ts, d[..|d| - 1]))
  {
    assert d[..|d|] == d;
    if AnchoredSearch(ts, d) {
      var e :| 0 <= e <= |d| && DollarAt(d, e) && TokensMatch(ts, d[..e]);
      assert e == |d| || (e == |d| - 1 && d[e] == '\n');
    }
    if d != [] && d[|d| - 1] == '\n' && TokensMatch(ts, d[..|d| - 1]) {
      assert DollarAt(d, |d| - 1);
    }
  }

  /** One trimmed item: blank ones are skipped, `~` ones compiled as user
      regular expressions (skipped when they do not compile), the rest
      anchored. */
  function CompileItem(item: string, compiles: string -> bool): Option<Exclusion>
  {
    if item == [] then None
    else if item[0] == '~' then
      if compiles(item[1..]) then Some(UserRegex(item[1..])) else None
    else if '*' in item || '?' in item then Some(Anchored(WildcardTokens(item)))
    else Some(Anchored(ExactTokens(item)))
  }

  /** `[item.strip() for item in ...]`. */
  function TrimAll(xs: seq<string>): (r: seq<string>)
    ensures |r| == |xs| && forall i :: 0 <= i < |xs| ==> r[i] == Trim(xs[i])
  {
    if xs == [] then [] else [Trim(xs[0])] + TrimAll(xs[1..])
  }

  /** The loop over the (trimmed) items: the successful compilations, in order. */
  function CompileAll(items: seq<string>, compiles: string -> bool): (r: seq<Exclusion>)
  {
    if items == [] then []
    else
      var first := CompileItem(items[0], compiles);
      var rest := CompileAll(items[1..], compiles);
      if first.Some? then [first.value] + rest else rest
  }

  /** The patterns are exactly the compilations of the items that compile. */
  lemma {:induction false} CompileAllMembers(items: seq<string>, compiles: string -> bool)
    ensures forall x :: x in CompileAll(items, compiles) ==>
      exists it :: it in items && CompileItem(it, compiles) == Some(x)
    ensures forall it :: it in items && CompileItem(it, compiles).Some? ==>
      CompileItem(it, compiles).value in CompileAll(items, compiles)
  {
    if items != [] {
      CompileAllMembers(items[1..], compiles);
      assert forall it :: it in items[1..] ==> it in items;
      assert forall it :: it in items ==> it == items[0] || it in items[1..];
    }
  }

  lemma {:induction false} CompileAllAppend(xs: seq<string>, ys: seq<string>, compiles: string -> bool)
    ensures CompileAll(xs + ys, compiles) == CompileAll(xs, compiles) + CompileAll(ys, compiles)
  {
    if xs == [] {
      assert xs + ys == ys;
    } else {
      var zs := xs + ys;
      assert zs[1..] == xs[1..] + ys && zs[0] == xs[0];
      CompileAllAppend(xs[1..], ys, compiles);
    }
  }

  /** `_parse_exclude_patterns`: falsy or unexpected values give no
      patterns; strings are split at commas, list items taken as they are. */
  function ParseExcludePatterns(v: PatternsValue, compiles: string -> bool): (r: seq<Exclusion>)
    ensures v.Unset? || v.OtherValue? || v == Csv([]) || v == Items([]) ==> r == []
  {
    match v
    case Unset => []
    case OtherValue => []
    case Csv(s) => if s == [] then [] else CompileAll(TrimAll(Split(s, ',')), compiles)
    case Items(xs) => if xs == [] then [] else CompileAll(TrimAll(xs), compiles)
  }

  lemma TrimAllAppend(a: seq<string>, b: seq<string>)
    ensures TrimAll(a + b) == TrimAll(a) + TrimAll(b)
  {
    assert forall i :: 0 <= i < |a| ==> (a + b)[i] == a[i];
    assert forall i :: |a| <= i < |a + b| ==> (a + b)[i] == b[i - |a|];
  }

  /** One compiled pattern finds the domain; user regular expressions are
      searched by the caller-supplied `search`. */
  predicate Excludes(x: Exclusion, domain: string, search: (string, string) -> bool)
  {
    match x
    case Anchored(ts) => AnchoredSearch(ts, domain)
    case UserRegex(src) => search(src, domain)
  }

  /** `_is_domain_excluded`: some pattern finds the domain. */
  function IsDomainExcluded(domain: string, patterns: seq<Exclusion>, search: (string, string) -> bool): (b: bool)
    ensures b <==> exists k :: 0 <= k < |patterns| && Excludes(patterns[k], domain, search)
  {
    if patterns == [] then false
    else Excludes(patterns[0], domain, search) || IsDomainExcluded(domain, patterns[1..], search)
  }

  /** Exact tokens match precisely the strings equal to the item up to case. */
  lemma {:induction false} ExactTokensMatch(item: string, s: string)
    ensures TokensMatch(ExactTokens(item), s) <==> Lower(s) == Lower(item)
  {
    if item != [] && s != [] {
      ExactTokensMatch(item[1..], s[1..]);
      assert ExactTokens(item)[1..] == ExactTokens(item[1..]);
      LowerConcat([s[0]], s[1..]);
      LowerConcat([item[0]], item[1..]);
      assert s == [s[0]] + s[1..] && item == [item[0]] + item[1..];
    } else if item == [] && s != [] {
      assert |Lower(s)| > 0;
    } else if item != [] && s == [] {
      assert |Lower(item)| > 0;
    }
  }

  /** An exact pattern excludes only the whole domain, ignoring case (the
      `$` of the expression also admits one trailing newline). */
  lemma ExactExcludesWholeDomain(item: string, domain: string, compiles: string -> bool, search: (string, string) -> bool)
    requires item != [] && item[0] != '~' && Literal(item)
    ensures CompileItem(item, compiles) == Some(Anchored(ExactTokens(item)))
    ensures Excludes(Anchored(ExactTokens(item)), domain, search) <==>
      Lower(domain) == Lower(item) || (domain != [] && domain[|domain| - 1] == '\n' && Lower(domain[..|domain| - 1]) == Lower(item))
  {
    AnchoredSearchEnds(ExactTokens(item), domain);
    ExactTokensMatch(item, domain);
    if domain != [] {
      ExactTokensMatch(item, domain[..|domain| - 1]);
    }
  }

  /** A setting holding one exact item gives that item's anchored literal. */
  lemma ParseSingleExact(item: string, compiles: string -> bool)
    requires item != [] && !IsSpace(item[0]) && !IsSpace(item[|item| - 1])
    requires item[0] != '~' && ',' !in item && Literal(item)
    ensures ParseExcludePatterns(Csv(item), compiles) == [Anchored(ExactTokens(item))]
  {
    assert Split(item, ',') == [item];
    TrimUnchanged(item);
    assert TrimAll([item]) == [item];
    assert CompileItem(item, compiles) == Some(Anchored(ExactTokens(item)));
    assert CompileAll([item], compiles) == [Anchored(ExactTokens(item))];
  }

  /** An exact pattern never excludes a domain more than one character
      longer than itself; so "example.com" does not exclude "sub.example.com". */
  lemma ExactIgnoresLonger(item: string, domain: string, search: (string, string) -> bool)
    requires |domain| > |item| + 1
    ensures !Excludes(Anchored(ExactTokens(item)), domain, search)
  {
    forall e | 0 <= e <= |domain| && DollarAt(domain, e) ensures !TokensMatch(ExactTokens(item), domain[..e]) {
      ExactTokensMatch(item, domain[..e]);
      assert |Lower(domain[..e])| != |Lower(item)|;
    }
  }

  lemma ExactIgnoresSubdomain(compiles: string -> bool, search: (string, string) -> bool)
    ensures !IsDomainExcluded("sub.example.com", ParseExcludePatterns(Csv("example.com"), compiles), search)
  {
    ParseSingleExact("example.com", compiles);
    ExactIgnoresLonger("example.com", "sub.example.com", search);
  }

  /** Wildcard tokens match what the glob of the lower-cased item matches
      in the lower-cased string, stars and question marks not crossing a
      newline. */
  lemma {:induction false} WildcardTokensMatch(item: string, s: string)
    ensures TokensMatch(WildcardTokens(item), s) <==> Glob(Lower(item), Lower(s), false)
    decreases |item| + |s|
  {
    var ts := WildcardTokens(item);
    var p := Lower(item);
    var t := Lower(s);
    if item != [] {
      assert ts[1..] == WildcardTokens(item[1..]);
      assert p[0] == LowerChar(item[0]) && p[1..] == Lower(item[1..]);
      if s != [] {
        assert t[0] == LowerChar(s[0]) && t[1..] == Lower(s[1..]);
        assert (t[0] == '\n') == (s[0] == '\n');
        WildcardTokensMatch(item[1..], s[1..]);
        if item[0] == '*' {
          WildcardTokensMatch(item, s[1..]);
          WildcardTokensMatch(item[1..], s);
        }
      } else if item[0] == '*' {
        WildcardTokensMatch(item[1..], s);
      }
    } else {
      assert |t| == |s|;
    }
  }

  /** A wildcard pattern excludes a domain exactly when the glob of the
      lower-cased item matches all of it (or all but a final newline). */
  lemma WildcardExcludesByGlob(item: string, domain: string, compiles: string -> bool, search: (string, string) -> bool)
    requires item != [] && item[0] != '~' && !Literal(item)
    ensures CompileItem(item, compiles) == Some(Anchored(WildcardTokens(item)))
    ensures Excludes(Anchored(WildcardTokens(item)), domain, search) <==>
      Glob(Lower(item), Lower(domain), false) ||
      (domain != [] && domain[|domain| - 1] == '\n' && Glob(Lower(item), Lower(domain[..|domain| - 1]), false))
  {
    AnchoredSearchEnds(WildcardTokens(item), domain);
    WildcardTokensMatch(item, domain);
    if domain != [] {
      WildcardTokensMatch(item, domain[..|domain| - 1]);
    }
  }

  /** With no patterns nothing is excluded. */
  lemma NoPatternsExcludeNothing(domain: string, search: (string, string) -> bool)
    ensures !IsDomainExcluded(domain, [], search)
  {
  }

  /** An item whose expression does not compile is skipped: the items
      around it give the same patterns as if it were absent. */
  lemma InvalidRegexSkipped(xs: seq<string>, bad: string, ys: seq<string>, compiles: string -> bool)
    requires Trim(bad) != [] && Trim(bad)[0] == '~' && !compiles(Trim(bad)[1..])
    ensures ParseExcludePatterns(Items(xs + [bad] + ys), compiles) == ParseExcludePatterns(Items(xs + ys), compiles)
  {
    var tx, tb, ty := TrimAll(xs), Trim(bad), TrimAll(ys);
    TrimAllSplice(xs, bad, ys);
    TrimAllAppend(xs, ys);
    CompileAllAppend(tx, [tb] + ty, compiles);
    CompileAllAppend(tx, ty, compiles);
    assert CompileAll([tb] + ty, compiles) == CompileAll(ty, compiles) by {
      assert ([tb] + ty)[1..] == ty;
    }
    assert xs + [bad] + ys != [];
  }

  lemma TrimAllSplice(xs: seq<string>, b: string, ys: seq<string>)
    ensures TrimAll(xs + [b] + ys) == TrimAll(xs) + ([Trim(b)] + TrimAll(ys))
  {
    assert xs + [b] + ys == xs + ([b] + ys);
    TrimAllAppend(xs, [b] + ys);
    TrimAllAppend([b], ys);
    assert TrimAll([b]) == [Trim(b)];
  }
}
