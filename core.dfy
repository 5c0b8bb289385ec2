/** The query engine of `apihangar/core.py`: discovering the typed variables
    of a query's SQL in its two syntaxes, the text rewrites applied before
    rendering and before execution, and `run`. The template engine, the `%`
    operator and the database are collaborators passed in as an Engine. */
module Core {
  import opened Wrappers
  import opened PyStr
  import Utils

  // ---------------------------------------------------------------------------
  // Type tags
  // ---------------------------------------------------------------------------

  /** The four types a variable can carry. */
  datatype VarKind = StrVar | IntVar | ListVar | IntListVar

  /** The textual tag of each type, as it prefixes a typed variable name. */
  function KindPrefix(k: VarKind): string
  {
    match k
    case StrVar => ""
    case IntVar => "int:"
    case ListVar => "list:"
    case IntListVar => "list:int:"
  }

  /** The conversion characters the printf-style syntax recognises. */
  predicate IsConversion(c: char)
  {
    c == 's' || c == 'd' || c == 'l' || c == 'a'
  }

  /** `_format_char_to_type`: the type a conversion character declares. */
  function ConversionKind(c: char): VarKind
    requires IsConversion(c)
  {
    match c
    case 's' => StrVar
    case 'd' => IntVar
    case 'l' => ListVar
    case 'a' => IntListVar
  }

  // ---------------------------------------------------------------------------
  // Printf-style extraction: re.findall(r"%\((?P<var_name>[\w\d\-_]+)\)(?P<var_type>[sdla])", sql)
  // ---------------------------------------------------------------------------

  /** `[\w\d\-_]` without the UNICODE flag. */
  predicate IsNameChar(c: char)
  {
    'a' <= c <= 'z' || 'A' <= c <= 'Z' || '0' <= c <= '9' || c == '_' || c == '-'
  }

  predicate IsName(n: string)
  {
    n != [] && forall i :: 0 <= i < |n| ==> IsNameChar(n[i])
  }

  /** One match of the pattern: the variable name and the conversion character. */
  datatype Placeholder = Placeholder(name: string, conv: char)

  predicate WellFormed(p: Placeholder)
  {
    IsName(p.name) && IsConversion(p.conv)
  }

  /** The text of a placeholder: `%(name)c`. */
  function PlaceholderText(p: Placeholder): string
  {
    "%(" + p.name + ")" + [p.conv]
  }

  /** Length of the run of name characters at the start of s. */
  function NameRun(s: string): (n: nat)
    ensures n <= |s|
    ensures forall i :: 0 <= i < n ==> IsNameChar(s[i])
    ensures n < |s| ==> !IsNameChar(s[n])
  {
    if s != [] && IsNameChar(s[0]) then 1 + NameRun(s[1..]) else 0
  }

  /** The match of the pattern at the very start of s, if there is one. */
  function MatchHere(s: string): Option<Placeholder>
  {
    if |s| >= 2 && s[0] == '%' && s[1] == '(' then
      var n := NameRun(s[2..]);
      if n > 0 && n + 3 < |s| && s[n + 2] == ')' && IsConversion(s[n + 3]) then
        Some(Placeholder(s[2..n + 2], s[n + 3]))
      else
        None
    else
      None
  }

  /** A match is a well-formed placeholder written at the start of s, and
      every such placeholder is the match: the name class excludes `)`, so
      the greedy name run is the only candidate. */
  lemma MatchHereSpec(s: string)
    ensures MatchHere(s).Some? ==> WellFormed(MatchHere(s).value) && PlaceholderText(MatchHere(s).value) <= s
    ensures forall p :: WellFormed(p) && PlaceholderText(p) <= s ==> MatchHere(s) == Some(p)
  {
    if |s| >= 2 && s[0] == '%' && s[1] == '(' {
      var n := NameRun(s[2..]);
      if n > 0 && n + 3 < |s| && s[n + 2] == ')' && IsConversion(s[n + 3]) {
        var p := Placeholder(s[2..n + 2], s[n + 3]);
        assert PlaceholderText(p) == s[..n + 4];
        forall p' | WellFormed(p') && PlaceholderText(p') <= s ensures p' == p {
          MatchFits(s, p');
        }
      } else {
        forall p | WellFormed(p) && PlaceholderText(p) <= s ensures false {
          MatchFits(s, p);
        }
      }
    }
  }

  /** A placeholder written at the start of s is where the name run ends. */
  lemma MatchFits(s: string, p: Placeholder)
    requires WellFormed(p) && PlaceholderText(p) <= s
    ensures NameRun(s[2..]) == |p.name|
    ensures |p.name| + 3 < |s| && s[|p.name| + 2] == ')' && s[|p.name| + 3] == p.conv
    ensures s[2..|p.name| + 2] == p.name
  {
    var t := PlaceholderText(p);
    var m := |p.name|;
    assert s[..|t|] == t;
    assert forall i :: 0 <= i < m ==> s[2..][i] == t[2 + i] == p.name[i];
    assert s[2..][m] == t[2 + m] == ')';
    NameRunExact(s[2..], m);
  }

  lemma NameRunExact(s: string, m: nat)
    requires m < |s| && !IsNameChar(s[m])
    requires forall i :: 0 <= i < m ==> IsNameChar(s[i])
    ensures NameRun(s) == m
  {
  }

  /** `re.findall`: the matches found scanning left to right, resuming after
      each match, one character further after a failed attempt. */
  function Findall(s: string): (r: seq<Placeholder>)
    ensures forall k :: 0 <= k < |r| ==> WellFormed(r[k])
    decreases |s|
  {
    if s == [] then []
    else
      MatchHereSpec(s);
      match MatchHere(s)
      case Some(p) => [p] + Findall(s[|PlaceholderText(p)|..])
      case None => Findall(s[1..])
  }

  /** A placeholder at the start is found, and scanning resumes right after it. */
  lemma FindallPlaceholder(p: Placeholder, rest: string)
    requires WellFormed(p)
    ensures Findall(PlaceholderText(p) + rest) == [p] + Findall(rest)
  {
    var s := PlaceholderText(p) + rest;
    assert PlaceholderText(p) <= s;
    MatchHereSpec(s);
    assert s[|PlaceholderText(p)|..] == rest;
  }

  /** A literal without `%(` contributes nothing, provided the text after it
      does not complete a `%(` with the literal's last character. Literal
      `%` signs, such as the `%%` escapes of a printf-style query, are fine. */
  lemma {:induction false} FindallLiteral(lit: string, rest: string)
    requires !Contains(lit, "%(")
    requires lit != [] && lit[|lit| - 1] == '%' && rest != [] ==> rest[0] != '('
    ensures Findall(lit + rest) == Findall(rest)
    decreases |lit|
  {
    if lit != [] {
      var s := lit + rest;
      if |lit| >= 2 && lit[0] == '%' && lit[1] == '(' {
        assert false;
      }
      assert s[0] == lit[0];
      if |lit| >= 2 {
        assert s[1] == lit[1];
      } else if rest != [] {
        assert s[1] == rest[0];
      }
      assert MatchHere(s) == None;
      assert s[1..] == lit[1..] + rest;
      ContainsDropFirst(lit, "%(");
      FindallLiteral(lit[1..], rest);
    } else {
      assert lit + rest == rest;
    }
  }

  /** Text without `%` holds no `%(`. */
  lemma NoPercentNoOpening(s: string)
    requires '%' !in s
    ensures !Contains(s, "%(")
  {
    if Contains(s, "%(") {
      ContainsChar(s, "%(", 0);
      assert false;
    }
  }

  /** A SQL text laid out as literal segments (no `%(`) around placeholders:
      lits[0] p[0] lits[1] p[1] ... p[n-1] lits[n]. */
  function Layout(lits: seq<string>, ps: seq<Placeholder>): string
    requires |lits| == |ps| + 1
  {
    if ps == [] then lits[0]
    else lits[0] + (PlaceholderText(ps[0]) + Layout(lits[1..], ps[1..]))
  }

  /** Extraction finds exactly the placeholders written in the text, in text
      order, duplicates kept. */
  lemma {:induction false} FindallLayout(lits: seq<string>, ps: seq<Placeholder>)
    requires |lits| == |ps| + 1
    requires forall k :: 0 <= k < |lits| ==> !Contains(lits[k], "%(")
    requires forall k :: 0 <= k < |ps| ==> WellFormed(ps[k])
    ensures Findall(Layout(lits, ps)) == ps
    decreases |ps|
  {
    if ps == [] {
      FindallLiteral(lits[0], []);
      assert lits[0] + [] == lits[0];
    } else {
      var tail := Layout(lits[1..], ps[1..]);
      FindallLayout(lits[1..], ps[1..]);
      FindallLayoutStep(lits[0], ps[0], tail);
      assert [ps[0]] + ps[1..] == ps;
    }
  }

  /** One literal segment and one placeholder in front of the rest. */
  lemma FindallLayoutStep(lit: string, p: Placeholder, tail: string)
    requires !Contains(lit, "%(") && WellFormed(p)
    ensures Findall(lit + (PlaceholderText(p) + tail)) == [p] + Findall(tail)
  {
    FindallPlaceholder(p, tail);
    FindallLiteral(lit, PlaceholderText(p) + tail);
  }

  /** SQL without `%(` has no variables; that is not an error. */
  lemma {:induction false} FindallNoOpening(s: string)
    requires !Contains(s, "%(")
    ensures Findall(s) == []
    decreases |s|
  {
    if s != [] {
      assert !("%(" <= s);
      FindallNoOpening(s[1..]);
    }
  }

  /** A placeholder with any other conversion character (`%(x)r`) is not a
      match; scanning goes on from its closing parenthesis. */
  lemma FindallOtherConversion(name: string, c: char, rest: string)
    requires IsName(name) && !IsConversion(c)
    ensures Findall("%(" + name + ")" + [c] + rest) == Findall([c] + rest)
  {
    var s := "%(" + name + ")" + [c] + rest;
    var n := |name|;
    assert s[2..][..n] == name && s[2..][n] == ')';
    NameRunExact(s[2..], n);
    assert MatchHere(s) == None;
    assert s[1..] == ("(" + name + ")") + ([c] + rest);
    NoPercentNoOpening("(" + name + ")");
    FindallLiteral("(" + name + ")", [c] + rest);
  }

  /** A typed variable name: the type's tag followed by the bare name. */
  function TypedName(p: Placeholder): string
    requires IsConversion(p.conv)
  {
    KindPrefix(ConversionKind(p.conv)) + p.name
  }

  /** The typed names `_string_get_variables` returns for sql. */
  function StringVariables(sql: string): (vars: seq<string>)
    ensures |vars| == |Findall(sql)|
  {
    var ms := Findall(sql);
    seq(|ms|, k requires 0 <= k < |ms| => TypedName(ms[k]))
  }

  /** `_string_get_variables`: one typed name per match, in text order. */
  method StringGetVariables(sql: string) returns (restored: seq<string>)
    ensures restored == StringVariables(sql)
  {
    var extraction := Findall(sql);
    restored := [];
    for k := 0 to |extraction|
      invariant |restored| == k
      invariant forall j :: 0 <= j < k ==> restored[j] == TypedName(extraction[j])
    {
      restored := restored + [TypedName(extraction[k])];
    }
  }

  /** For a text laid out from placeholders, the typed names are the tags of
      the written conversion characters followed by the written names. */
  lemma StringVariablesLayout(lits: seq<string>, ps: seq<Placeholder>, k: nat)
    requires |lits| == |ps| + 1
    requires forall i :: 0 <= i < |lits| ==> !Contains(lits[i], "%(")
    requires forall i :: 0 <= i < |ps| ==> WellFormed(ps[i])
    requires k < |ps|
    ensures |StringVariables(Layout(lits, ps))| == |ps|
    ensures IsConversion(ps[k].conv) && StringVariables(Layout(lits, ps))[k] == KindPrefix(ConversionKind(ps[k].conv)) + ps[k].name
  {
    FindallLayout(lits, ps);
  }

  // ---------------------------------------------------------------------------
  // Template syntax: restoring the tags of the names the template looks up
  // ---------------------------------------------------------------------------

  /** The tag `_template_get_variables` gives the bare name v: the first of
      `list:int:v`, `int:v`, `list:v` that occurs in the SQL, else none. */
  function RestoredKind(sql: string, v: string): VarKind
  {
    if Contains(sql, "list:int:" + v) then IntListVar
    else if Contains(sql, "int:" + v) then IntVar
    else if Contains(sql, "list:" + v) then ListVar
    else StrVar
  }

  /** The preference order of the tags. */
  function Preference(k: VarKind): nat
  {
    match k
    case IntListVar => 0
    case IntVar => 1
    case ListVar => 2
    case StrVar => 3
  }

  /** The restored tag is the most preferred tag whose tagged name occurs in
      the SQL, and the bare name is kept only when no tagged form occurs.
      Because the test is a substring test, an occurrence of `list:int:v` is
      also one of `int:v`. */
  lemma RestoredKindIsPreferred(sql: string, v: string)
    ensures var r := RestoredKind(sql, v);
            && (r != StrVar ==> Contains(sql, KindPrefix(r) + v))
            && (forall k :: k != StrVar && Contains(sql, KindPrefix(k) + v) ==> Preference(r) <= Preference(k))
            && (r == StrVar <==> forall k :: k != StrVar ==> !Contains(sql, KindPrefix(k) + v))
    ensures Contains(sql, "list:int:" + v) ==> Contains(sql, "int:" + v)
  {
    if Contains(sql, "list:int:" + v) {
      assert "list:int:" + v == "list:" + ("int:" + v);
      ContainsSuffix(sql, "list:", "int:" + v);
    }
  }

  /** `_template_get_variables`, given the names the template inspector
      reports: one restored name per reported name, in the same order. */
  method TemplateGetVariables(sql: string, variables: seq<string>) returns (restored: seq<string>)
    ensures |restored| == |variables|
    ensures forall i :: 0 <= i < |variables| ==> restored[i] == KindPrefix(RestoredKind(sql, variables[i])) + variables[i]
  {
    restored := [];
    for i := 0 to |variables|
      invariant |restored| == i
      invariant forall j :: 0 <= j < i ==> restored[j] == KindPrefix(RestoredKind(sql, variables[j])) + variables[j]
    {
      var v := variables[i];
      if Contains(sql, "list:int:" + v) {
        restored := restored + ["list:int:" + v];
      } else if Contains(sql, "int:" + v) {
        restored := restored + ["int:" + v];
      } else if Contains(sql, "list:" + v) {
        restored := restored + ["list:" + v];
      } else {
        restored := restored + [v];
      }
    }
  }

  /** The restored names as a function, for specifications. */
  function TemplateVariables(sql: string, variables: seq<string>): (restored: seq<string>)
    ensures |restored| == |variables|
  {
    seq(|variables|, i requires 0 <= i < |variables| => KindPrefix(RestoredKind(sql, variables[i])) + variables[i])
  }

  /** A name whose `list:int:` tag occurs anywhere in the text, as in
      `{{ list:int:ids }}`, is restored with that tag. */
  lemma TemplateVariablesListInt(before: string, v: string, after: string)
    ensures TemplateVariables(before + "list:int:" + v + after, [v]) == ["list:int:" + v]
  {
    var sql := before + "list:int:" + v + after;
    assert sql == before + ("list:int:" + v) + after;
    ContainsMiddle(before, "list:int:" + v, after);
    var r := TemplateVariables(sql, [v]);
    assert r[0] == "list:int:" + v;
  }

  /** The test is a substring test, so a name inherits the tag of any longer
      name it begins: with `{{ v }}` and `{{ int:vx }}` in the text (and no
      `list:int:v`), v is restored as `int:v`. */
  lemma RestoredKindOfPrefix(sql: string, v: string, x: string)
    requires Contains(sql, "int:" + v + x)
    requires !Contains(sql, "list:int:" + v)
    ensures RestoredKind(sql, v) == IntVar
  {
    ContainsPrefixOf(sql, "int:" + v + x, "int:" + v);
  }


  // ---------------------------------------------------------------------------
  // Text rewrites
  // ---------------------------------------------------------------------------

  /** `sql.replace("int:", "").replace("list:", "")`: drops the type tags
      before the template engine sees the SQL. */
  function StripTags(sql: string): (r: string)
    ensures |r| <= |sql|
  {
    ReplaceAll(ReplaceAll(sql, "int:", ""), "list:", "")
  }

  /** SQL without tags is left as it is. */
  lemma StripTagsUntagged(sql: string)
    requires !Contains(sql, "int:") && !Contains(sql, "list:")
    ensures StripTags(sql) == sql
  {
    ReplaceAbsent(sql, "int:", "");
    ReplaceAbsent(sql, "list:", "");
  }

  /** The output need not be free of tags: removing one can join the text
      around it into a new one. */
  lemma StripTagsNotTagFree()
    ensures StripTags("inint:t:") == "int:"
  {
    var s := "inint:t:";
    assert ReplaceAll(s[2..][4..], "int:", "") == "t:";
    assert ReplaceAll(s[2..], "int:", "") == "t:";
    assert ReplaceAll(s[1..], "int:", "") == "nt:";
    assert ReplaceAll(s, "int:", "") == "int:";
    assert !Contains("int:", "list:");
    ReplaceAbsent("int:", "list:", "");
  }

  /** `sql.replace(")l", ")r").replace(")a", ")r")`: the list markers become
      the `repr` conversion before the `%` substitution. */
  function MarkerRewrite(sql: string): (r: string)
    ensures |r| == |sql|
  {
    ReplaceAll(ReplaceAll(sql, ")l", ")r"), ")a", ")r")
  }

  /** Position by position: exactly the `l` or `a` right after a `)` becomes `r`. */
  lemma MarkerRewriteAt(sql: string, i: nat)
    requires i < |sql|
    ensures MarkerRewrite(sql)[i] == if 0 < i && sql[i - 1] == ')' && (sql[i] == 'l' || sql[i] == 'a') then 'r' else sql[i]
  {
    var once := ReplaceAll(sql, ")l", ")r");
    ReplacePairAt(sql, ')', 'l', 'r', i);
    ReplacePairAt(once, ')', 'a', 'r', i);
    if 0 < i {
      ReplacePairAt(sql, ')', 'l', 'r', i - 1);
    }
  }

  /** After the rewrite no `)l` and no `)a` is left. */
  lemma MarkerRewriteClean(sql: string)
    ensures !Contains(MarkerRewrite(sql), ")l") && !Contains(MarkerRewrite(sql), ")a")
  {
    var r := MarkerRewrite(sql);
    ContainsPair(r, ')', 'l');
    ContainsPair(r, ')', 'a');
    forall i | 0 < i < |r| ensures !(r[i - 1] == ')' && (r[i] == 'l' || r[i] == 'a')) {
      MarkerRewriteAt(sql, i);
      MarkerRewriteAt(sql, i - 1);
    }
  }

  /** `' '.join(line.strip() for line in sql.splitlines() if line and line.strip())`:
      the stripped non-blank lines, in order. */
  function NonBlankLines(lines: seq<string>): (r: seq<string>)
    ensures forall k :: 0 <= k < |r| ==> r[k] != [] && Trimmed(r[k])
    ensures r == [] <==> AllBlank(lines)
  {
    if lines == [] then []
    else
      AllBlankCons(lines[0], lines[1..]);
      assert lines == [lines[0]] + lines[1..];
      (if AllSpace(lines[0]) then [] else [Strip(lines[0])]) + NonBlankLines(lines[1..])
  }

  /** The characters at which Python 2.7's `unicode.splitlines()` breaks;
      every one of them is whitespace. */
  const LineBreaks: set<char> :=
    {'\n', '\U{B}', '\U{C}', '\r', '\U{1C}', '\U{1D}', '\U{1E}', '\U{85}', '\U{2028}', '\U{2029}'}

  /** Collapses the rendered SQL to one line. Splitting at every line-break
      character separately (`\r\n` counts as two) differs from `splitlines`
      only by empty lines, which are dropped anyway. */
  function CollapseLines(sql: string): string
  {
    Join(NonBlankLines(Split(sql, LineBreaks)), " ")
  }

  /** The filter works line by line and keeps the order: the kept lines of
      a concatenation are the kept lines of each part. */
  lemma {:induction false} NonBlankLinesConcat(a: seq<string>, b: seq<string>)
    ensures NonBlankLines(a + b) == NonBlankLines(a) + NonBlankLines(b)
    decreases |a|
  {
    if a != [] {
      assert [a[0]] + a[1..] == a && [a[0]] + (a[1..] + b) == a + b;
      NonBlankCons(a[0], a[1..]);
      NonBlankCons(a[0], a[1..] + b);
      NonBlankLinesConcat(a[1..], b);
    } else {
      assert a + b == b;
    }
  }

  /** A single line is dropped exactly when it is blank, and kept stripped
      otherwise. */
  lemma NonBlankLinesOne(line: string)
    ensures NonBlankLines([line]) == if AllSpace(line) then [] else [Strip(line)]
  {
    assert [line][1..] == [];
  }

  /** Lines that are already stripped and not empty are all kept as they are. */
  lemma {:induction false} NonBlankLinesKeepsTrimmed(lines: seq<string>)
    requires forall k :: 0 <= k < |lines| ==> lines[k] != [] && Trimmed(lines[k])
    ensures NonBlankLines(lines) == lines
    decreases |lines|
  {
    if lines != [] {
      assert !IsSpace(lines[0][0]);
      NonBlankLinesKeepsTrimmed(lines[1..]);
      assert lines == [lines[0]] + lines[1..];
    }
  }

  /** Lines joined with newlines collapse to their stripped non-blank lines
      joined with single spaces. */
  lemma CollapseJoinedLines(lines: seq<string>)
    requires |lines| >= 1
    requires forall k :: 0 <= k < |lines| ==> forall c :: c in lines[k] ==> c !in LineBreaks
    ensures CollapseLines(Join(lines, "\n")) == Join(NonBlankLines(lines), " ")
  {
    SplitJoin(lines, '\n', LineBreaks);
  }

  /** Stripped, non-empty lines joined with newlines collapse to the same
      lines joined with spaces. */
  lemma CollapseTrimmedLines(lines: seq<string>)
    requires |lines| >= 1
    requires forall k :: 0 <= k < |lines| ==> lines[k] != [] && Trimmed(lines[k])
    requires forall k :: 0 <= k < |lines| ==> forall c :: c in lines[k] ==> c !in LineBreaks
    ensures CollapseLines(Join(lines, "\n")) == Join(lines, " ")
  {
    CollapseJoinedLines(lines);
    NonBlankLinesKeepsTrimmed(lines);
  }

  /** Padding goes and a blank line between two lines is dropped:
      `pre + x + post`, a blank line and `y` collapse to `x + " " + y`. */
  lemma CollapsePaddedLines(pre: string, x: string, post: string, blank: string, y: string)
    requires AllSpace(pre) && AllSpace(post) && AllSpace(blank)
    requires x != [] && Trimmed(x) && y != [] && Trimmed(y)
    requires forall c :: c in pre + x + post + blank + y ==> c !in LineBreaks
    ensures CollapseLines(pre + x + post + "\n" + blank + "\n" + y) == x + " " + y
  {
    var lines := [pre + x + post, blank, y];
    JoinThree(lines, "\n");
    assert lines[0] + "\n" + lines[1] + "\n" + lines[2] == pre + x + post + "\n" + blank + "\n" + y;
    forall k, c | 0 <= k < 3 && c in lines[k] ensures c !in LineBreaks {
      assert c in pre + x + post + blank + y;
    }
    CollapseJoinedLines(lines);
    NonBlankThree(pre, x, post, blank, y);
    assert Join([x, y], " ") == x + " " + Join([y], " ");
  }

  lemma JoinThree(ps: seq<string>, sep: string)
    requires |ps| == 3
    ensures Join(ps, sep) == ps[0] + sep + ps[1] + sep + ps[2]
  {
    var t := Join(ps[1..], sep);
    assert ps[1..][0] == ps[1] && ps[1..][1..] == [ps[2]];
    assert Join(ps[1..][1..], sep) == ps[2];
    assert t == ps[1] + sep + ps[2];
    assert Join(ps, sep) == ps[0] + sep + t;
  }

  lemma NonBlankThree(pre: string, x: string, post: string, blank: string, y: string)
    requires AllSpace(pre) && AllSpace(post) && AllSpace(blank)
    requires x != [] && Trimmed(x) && y != [] && Trimmed(y)
    ensures NonBlankLines([pre + x + post, blank, y]) == [x, y]
  {
    var u := pre + x + post;
    StripPadded(pre, x, post);
    assert !AllSpace(u);
    assert !IsSpace(y[0]);
    NonBlankCons(y, []);
    NonBlankCons(blank, [y]);
    assert [blank] + [y] == [blank, y];
    NonBlankCons(u, [blank, y]);
    assert [u] + [blank, y] == [u, blank, y];
  }

  /** The kept lines of a line followed by more lines. */
  lemma NonBlankCons(line: string, rest: seq<string>)
    ensures NonBlankLines([line] + rest) == (if AllSpace(line) then [] else [Strip(line)]) + NonBlankLines(rest)
  {
    assert ([line] + rest)[0] == line && ([line] + rest)[1..] == rest;
  }

  /** The collapsed SQL is one line with no whitespace at either end, and it
      is empty exactly when the SQL is all whitespace. */
  lemma CollapseLinesShape(sql: string)
    ensures forall c :: c in LineBreaks ==> c !in CollapseLines(sql)
    ensures Trimmed(CollapseLines(sql))
    ensures CollapseLines(sql) == [] <==> AllSpace(sql)
  {
    var lines := Split(sql, LineBreaks);
    var kept := NonBlankLines(lines);
    CollapseNoBreak(sql);
    if kept != [] {
      JoinNonEmpty(kept, " ");
    }
    SplitSpace(sql, LineBreaks);
  }

  /** Joining the kept lines with spaces adds no line break. */
  lemma CollapseNoBreak(sql: string)
    ensures forall c :: c in LineBreaks ==> c !in CollapseLines(sql)
  {
    var lines := Split(sql, LineBreaks);
    var kept := NonBlankLines(lines);
    NonBlankLinesChars(lines);
    assert ' ' !in LineBreaks;
    forall c | c in LineBreaks && c in CollapseLines(sql) ensures false {
      JoinChars(kept, " ", c);
    }
  }

  /** Characters of kept lines are characters of the lines, so no line break. */
  lemma {:induction false} NonBlankLinesChars(lines: seq<string>)
    requires forall k :: 0 <= k < |lines| ==> forall j :: 0 <= j < |lines[k]| ==> lines[k][j] !in LineBreaks
    ensures forall k :: 0 <= k < |NonBlankLines(lines)| ==> forall c :: c in NonBlankLines(lines)[k] ==> c !in LineBreaks
    decreases |lines|
  {
    if lines != [] {
      NonBlankLinesChars(lines[1..]);
    }
  }

  /** Every line is blank. */
  predicate AllBlank(lines: seq<string>)
  {
    forall k :: 0 <= k < |lines| ==> AllSpace(lines[k])
  }

  lemma AllBlankCons(x: string, xs: seq<string>)
    ensures AllBlank([x] + xs) <==> AllSpace(x) && AllBlank(xs)
  {
    var ys := [x] + xs;
    if AllSpace(x) && AllBlank(xs) {
      forall k | 0 <= k < |ys| ensures AllSpace(ys[k]) {
        if k > 0 { assert ys[k] == xs[k - 1]; }
      }
    }
    if AllBlank(ys) {
      assert ys[0] == x;
      forall k | 0 <= k < |xs| ensures AllSpace(xs[k]) {
        assert xs[k] == ys[k + 1];
      }
    }
  }

  lemma AllSpaceConcat(a: string, b: string)
    ensures AllSpace(a + b) <==> AllSpace(a) && AllSpace(b)
  {
    var s := a + b;
    if AllSpace(s) {
      forall i | 0 <= i < |a| ensures IsSpace(a[i]) {
        assert a[i] == s[i];
      }
      forall i | 0 <= i < |b| ensures IsSpace(b[i]) {
        assert b[i] == s[|a| + i];
      }
    }
    if AllSpace(a) && AllSpace(b) {
      forall i | 0 <= i < |s| ensures IsSpace(s[i]) {
        if i < |a| { assert s[i] == a[i]; } else { assert s[i] == b[i - |a|]; }
      }
    }
  }

  /** A text whose line breaks are whitespace is all whitespace exactly when
      each of its lines is. */
  lemma {:induction false} SplitSpace(s: string, seps: set<char>)
    requires forall c :: c in seps ==> IsSpace(c)
    ensures AllSpace(s) <==> AllBlank(Split(s, seps))
    decreases |s|
  {
    if s != [] {
      SplitSpace(s[1..], seps);
      var rest := Split(s[1..], seps);
      var ps := Split(s, seps);
      assert s == [s[0]] + s[1..];
      AllSpaceConcat([s[0]], s[1..]);
      if s[0] !in seps {
        assert ps == [[s[0]] + rest[0]] + rest[1..];
        assert rest == [rest[0]] + rest[1..];
        AllBlankCons([s[0]] + rest[0], rest[1..]);
        AllBlankCons(rest[0], rest[1..]);
        AllSpaceConcat([s[0]], rest[0]);
      } else {
        assert ps == [""] + rest;
        AllBlankCons("", rest);
      }
    }
  }

  /** Collapsing is idempotent. */
  lemma CollapseLinesIdempotent(sql: string)
    ensures CollapseLines(CollapseLines(sql)) == CollapseLines(sql)
  {
    var r := CollapseLines(sql);
    CollapseLinesShape(sql);
    SplitPiece(r, LineBreaks);
    if r == [] {
      assert NonBlankLines([r]) == [];
    } else {
      assert !AllSpace(r) by { assert !IsSpace(r[0]); }
      assert NonBlankLines([r]) == [Strip(r)] + NonBlankLines([]);
    }
  }

  /** `sql.replace(",)", ")").replace(", )", " )")`: turns the `repr` of a
      1-tuple, `('foo',)`, into `('foo')`. */
  function CommaFix(sql: string): string
  {
    ReplaceAll(ReplaceAll(sql, ",)", ")"), ", )", " )")
  }

  /** The fix never lengthens the SQL and only deletes commas: every other
      character is kept, in order. */
  lemma CommaFixOnlyDeletesCommas(sql: string)
    ensures |CommaFix(sql)| <= |sql|
    ensures Without(CommaFix(sql), ',') == Without(sql, ',')
  {
    assert Without(",)", ',') == Without(")", ',') by {
      assert Without(",)", ',') == Without(")", ',') == ")";
    }
    assert Without(", )", ',') == Without(" )", ',') by {
      assert Without(", )", ',') == Without(" )", ',') == " )";
    }
    ReplaceKeepsOthers(sql, ",)", ")", ',');
    ReplaceKeepsOthers(ReplaceAll(sql, ",)", ")"), ", )", " )", ',');
  }

  /** The 1-tuple case: `('foo',)` becomes `('foo')`. */
  lemma CommaFixOneTuple()
    ensures CommaFix("('foo',)") == "('foo')"
  {
    assert "('foo',)" == "('foo'" + ",)";
    ReplaceSkip("('foo'", ",)", ",)", ")");
    assert ReplaceAll(",)", ",)", ")") == ")";
    assert "('foo'" + ")" == "('foo')";
    NoSpaceNoPattern("('foo')");
    ReplaceAbsent("('foo')", ", )", " )");
  }

  /** The fix is one pass, so it is not idempotent: `,,)` becomes `,)`,
      which a second pass would turn into `)`. */
  lemma CommaFixNotIdempotent()
    ensures CommaFix(",,)") == ",)"
    ensures CommaFix(CommaFix(",,)")) == ")"
  {
    assert ReplaceAll(",)", ",)", ")") == ")";
    assert ",,)"[1..] == ",)";
    assert ReplaceAll(",,)", ",)", ")") == ",)";
    NoSpaceNoPattern(",)");
    ReplaceAbsent(",)", ", )", " )");
    NoSpaceNoPattern(")");
    ReplaceAbsent(")", ", )", " )");
  }

  lemma NoSpaceNoPattern(s: string)
    requires ' ' !in s
    ensures !Contains(s, ", )")
  {
    if Contains(s, ", )") {
      ContainsChar(s, ", )", 1);
      assert false;
    }
  }

  // ---------------------------------------------------------------------------
  // Queries and the engine they run on
  // ---------------------------------------------------------------------------

  /** A stored query: its SQL text, the database alias it runs against and
      its syntax (Django template when useTemplates, printf-style otherwise). */
  datatype Query = Query(sql: string, database: string, useTemplates: bool)

  /** The parameters a query is rendered with: name -> value, in insertion order. */
  type Params = seq<(string, Utils.PyValue)>

  /** What `cursor.execute` leaves behind: the column descriptions and the
      rows `fetchall` returns. */
  datatype Cursor = Cursor(description: seq<Utils.ColumnDescription>, rows: seq<seq<Utils.PyValue>>)

  /** The collaborators of the engine, taken as given functions:
      - inspect: parse a template and list the variable names it looks up
        (`Template(...)` followed by the template inspector);
      - render: render a template with the parameters as its context, with
        escaping switched off;
      - interpolate: Python's `sql % params`;
      - hasConnection: whether `connections[alias]` exists;
      - execute: run SQL on a database and return its cursor. */
  datatype Engine = Engine(
    inspect: string -> Result<seq<string>>,
    render: (string, Params) -> Result<string>,
    interpolate: (string, Params) -> Result<string>,
    hasConnection: string -> bool,
    execute: (string, string) -> Result<Cursor>)

  /** `get_variables`: the typed variable names of a query, by template
      inspection when the query uses templates and by scanning the
      printf-style placeholders otherwise. */
  function Variables(engine: Engine, q: Query): Result<seq<string>>
  {
    if q.useTemplates then
      match engine.inspect(StripTags(q.sql))
      case Failure(e) => Failure(e)
      case Success(names) => Success(TemplateVariables(q.sql, names))
    else Success(StringVariables(q.sql))
  }

  /** A printf-style query lists its placeholders; a template query lists
      exactly when inspection succeeds, each inspected name with its
      restored tag, and raises what inspection raises otherwise. */
  lemma VariablesSpec(engine: Engine, q: Query)
    ensures var r := Variables(engine, q);
            && (!q.useTemplates ==> r == Success(StringVariables(q.sql)))
            && (q.useTemplates ==> (r.Success? <==> engine.inspect(StripTags(q.sql)).Success?))
            && (q.useTemplates && r.Failure? ==> r.error == engine.inspect(StripTags(q.sql)).error)
            && (q.useTemplates && r.Success? ==>
                  var names := engine.inspect(StripTags(q.sql)).value;
                  |r.value| == |names| &&
                  forall i :: 0 <= i < |names| ==> r.value[i] == KindPrefix(RestoredKind(q.sql, names[i])) + names[i])
  {
  }

  /** `get_variables`, dispatching to the two extraction loops. */
  method GetVariables(engine: Engine, q: Query) returns (r: Result<seq<string>>)
    ensures r == Variables(engine, q)
  {
    if q.useTemplates {
      var names := engine.inspect(StripTags(q.sql));
      if names.Failure? {
        return Failure(names.error);
      }
      var restored := TemplateGetVariables(q.sql, names.value);
      assert restored == TemplateVariables(q.sql, names.value);
      return Success(restored);
    }
    var restored := StringGetVariables(q.sql);
    return Success(restored);
  }

  /** `render_sql`: a template query is rendered with its tags stripped; a
      printf-style query is interpolated after its list markers are rewritten. */
  function RenderSql(engine: Engine, q: Query, params: Params): (r: Result<string>)
    ensures q.useTemplates ==> r == engine.render(StripTags(q.sql), params)
    ensures !q.useTemplates ==> r == engine.interpolate(MarkerRewrite(q.sql), params)
  {
    if q.useTemplates then engine.render(StripTags(q.sql), params)
    else engine.interpolate(MarkerRewrite(q.sql), params)
  }

  /** The rows `run` returns: all of them, or only the first with `return_one`. */
  datatype QueryResult = AllRows(rows: seq<Utils.Row>) | OneRow(row: Utils.Row)

  /** What `run` returns: the SQL sent to the database, and the result. */
  datatype RunOutput = RunOutput(sql: string, result: QueryResult)

  /** The text `run` sends to the database for a rendered query: collapsed
      to one line, then the 1-tuple comma fix. */
  function NormalizeSql(rendered: string): (sql: string)
    ensures forall c :: c in LineBreaks ==> c !in sql
    ensures |sql| <= |CollapseLines(rendered)|
  {
    var line := CollapseLines(rendered);
    CollapseLinesShape(rendered);
    CommaFixNoLineBreak(line);
    CommaFixOnlyDeletesCommas(line);
    CommaFix(line)
  }

  /** The comma fix adds no line break. */
  lemma CommaFixNoLineBreak(line: string)
    requires forall c :: c in LineBreaks ==> c !in line
    ensures forall c :: c in LineBreaks ==> c !in CommaFix(line)
  {
    forall c | c in LineBreaks ensures c !in CommaFix(line) {
      ReplaceNoNewChar(line, ",)", ")", c);
      ReplaceNoNewChar(ReplaceAll(line, ",)", ")"), ", )", " )", c);
    }
  }

  /** What `run(query, return_one, params)` does, step by step: look up the
      connection, render, normalize, execute, fetch all rows as ordered
      mappings, and keep only the first row with `return_one`. */
  function Executed(engine: Engine, q: Query, returnOne: bool, params: Params): (r: Result<RunOutput>)
    ensures !engine.hasConnection(q.database) ==> r == Failure(ConnectionDoesNotExist)
    ensures r.Success? ==> forall c :: c in LineBreaks ==> c !in r.value.sql
    ensures r.Success? ==> engine.execute(q.database, r.value.sql).Success?
    ensures r.Success? ==> r.value.result.OneRow? == returnOne
  {
    if !engine.hasConnection(q.database) then Failure(ConnectionDoesNotExist)
    else
      match RenderSql(engine, q, params)
      case Failure(e) => Failure(e)
      case Success(rendered) =>
        var sql := NormalizeSql(rendered);
        match engine.execute(q.database, sql)
        case Failure(e) => Failure(e)
        case Success(cursor) =>
          var rows := Utils.DictFetchAll(cursor.description, cursor.rows);
          if !returnOne then Success(RunOutput(sql, AllRows(rows)))
          else if rows == [] then Failure(IndexError)
          else Success(RunOutput(sql, OneRow(rows[0])))
  }

  /** `run`: each step rebinds the SQL text, as the source does. */
  method Run(engine: Engine, q: Query, returnOne: bool, params: Params) returns (r: Result<RunOutput>)
    ensures r == Executed(engine, q, returnOne, params)
  {
    if !engine.hasConnection(q.database) {
      return Failure(ConnectionDoesNotExist);
    }
    var rendered := RenderSql(engine, q, params);
    if rendered.Failure? {
      return Failure(rendered.error);
    }
    var sql := rendered.value;
    sql := CollapseLines(sql);
    sql := CommaFix(sql);
    assert sql == NormalizeSql(rendered.value);
    var cursor := engine.execute(q.database, sql);
    if cursor.Failure? {
      return Failure(cursor.error);
    }
    var result := Utils.DictFetchAll(cursor.value.description, cursor.value.rows);
    if returnOne {
      if result == [] {
        return Failure(IndexError);
      }
      return Success(RunOutput(sql, OneRow(result[0])));
    }
    return Success(RunOutput(sql, AllRows(result)));
  }

  /** Once the SQL has been sent and the cursor fetched: without `return_one`
      every fetched row comes back, in order; with it the first row comes
      back, and an empty result raises IndexError. */
  lemma RunRows(engine: Engine, q: Query, returnOne: bool, params: Params, rendered: string, cursor: Cursor)
    requires engine.hasConnection(q.database)
    requires RenderSql(engine, q, params) == Success(rendered)
    requires engine.execute(q.database, NormalizeSql(rendered)) == Success(cursor)
    ensures var r := Executed(engine, q, returnOne, params);
            var rows := Utils.DictFetchAll(cursor.description, cursor.rows);
            && (!returnOne ==> r == Success(RunOutput(NormalizeSql(rendered), AllRows(rows))) && |rows| == |cursor.rows|)
            && (returnOne && cursor.rows == [] ==> r == Failure(IndexError))
            && (returnOne && cursor.rows != [] ==> r == Success(RunOutput(NormalizeSql(rendered), OneRow(rows[0]))))
  {
  }
}
