/** The request handling of `apihangar/views.py` that is not HTTP plumbing:
    decoding the query-string parameters of `execute_endpoint` into typed
    query parameters, and collecting the form variables of an endpoint in
    `retrieve_endpoint_form`. */
module Views {
  import opened Wrappers
  import opened PyStr
  import Utils
  import Core

  // ---------------------------------------------------------------------------
  // Keys: `list:` is tested first, then `int:`
  // ---------------------------------------------------------------------------

  /** The type a request key declares and the parameter name it assigns. */
  function DecodeKey(key: string): (d: (Core.VarKind, string))
    ensures Core.KindPrefix(d.0) + d.1 == key
  {
    if "list:" <= key then
      var k := key[5..];
      assert key == "list:" + k;
      if "int:" <= k then
        assert k == "int:" + k[4..];
        (Core.IntListVar, k[4..])
      else (Core.ListVar, k)
    else if "int:" <= key then
      assert key == "int:" + key[4..];
      (Core.IntVar, key[4..])
    else (Core.StrVar, key)
  }

  /** A tagged name decodes to its tag and name, provided the name does not
      itself begin with a tag the decoder would read first. */
  lemma DecodeKeyRoundTrip(k: Core.VarKind, n: string)
    requires k == Core.StrVar ==> !("list:" <= n) && !("int:" <= n)
    requires k == Core.ListVar ==> !("int:" <= n)
    ensures DecodeKey(Core.KindPrefix(k) + n) == (k, n)
  {
    var key := Core.KindPrefix(k) + n;
    match k
    case StrVar =>
      assert key == n;
    case IntVar =>
      assert key[..4] == "int:";
      assert !("list:" <= key) by { assert key[0] == 'i'; }
      assert key[4..] == n;
    case ListVar =>
      assert key[..5] == "list:" && key[5..] == n;
    case IntListVar =>
      assert key[..5] == "list:" && key[5..] == "int:" + n;
      assert key[5..][4..] == n;
  }

  /** Only the order `list:` then `int:` is read: `int:list:x` is a scalar
      integer named `list:x`. */
  lemma DecodeKeyIntThenList()
    ensures DecodeKey("int:list:x") == (Core.IntVar, "list:x")
  {
    assert "int:list:x" == Core.KindPrefix(Core.IntVar) + "list:x";
    DecodeKeyRoundTrip(Core.IntVar, "list:x");
  }

  /** The names the printf-style scanner reports decode back to their
      placeholders: the form variables and the request keys agree. */
  lemma StringVariablesDecode(sql: string, i: nat)
    requires i < |Core.StringVariables(sql)|
    ensures var p := Core.Findall(sql)[i];
            DecodeKey(Core.StringVariables(sql)[i]) == (Core.ConversionKind(p.conv), p.name)
  {
    var p := Core.Findall(sql)[i];
    assert Core.WellFormed(p);
    assert ':' !in p.name;
    TagHasColon(p.name);
    DecodeKeyRoundTrip(Core.ConversionKind(p.conv), p.name);
  }

  /** A tagged text contains a colon. */
  lemma TagHasColon(n: string)
    ensures "list:" <= n ==> ':' in n
    ensures "int:" <= n ==> ':' in n
  {
    if "list:" <= n {
      assert n[4] == ':';
    }
    if "int:" <= n {
      assert n[3] == ':';
    }
  }

  // ---------------------------------------------------------------------------
  // Values
  // ---------------------------------------------------------------------------

  /** `[i for i in value.split(",") if i]`: the comma pieces that are not
      empty before stripping. */
  function NonEmptyPieces(pieces: seq<string>): (r: seq<string>)
    ensures forall k :: 0 <= k < |r| ==> r[k] != [] && r[k] in pieces
    ensures |r| <= |pieces|
  {
    if pieces == [] then []
    else (if pieces[0] == [] then [] else [pieces[0]]) + NonEmptyPieces(pieces[1..])
  }

  /** The filter keeps order: it works piece by piece, dropping exactly the
      empty ones. */
  lemma {:induction false} NonEmptyPiecesConcat(a: seq<string>, b: seq<string>)
    ensures NonEmptyPieces(a + b) == NonEmptyPieces(a) + NonEmptyPieces(b)
    decreases |a|
  {
    if a != [] {
      assert (a + b)[1..] == a[1..] + b;
      NonEmptyPiecesConcat(a[1..], b);
    } else {
      assert a + b == b;
    }
  }

  /** A single piece is dropped exactly when it is empty. */
  lemma NonEmptyPiecesOne(p: string)
    ensures NonEmptyPieces([p]) == if p == [] then [] else [p]
  {
    assert [p][1..] == [];
  }

  /** Empty pieces of a list value are skipped: `list:int:n=1,,2,`
      assigns the tuple `(1, 2)`. */
  lemma IntListSkipsEmpty(n: string, i: nat, j: nat)
    ensures Action("list:int:" + n, NatToString(i) + ",," + NatToString(j) + ",")
            == Assign(n, Utils.Tuple([Utils.Number(i), Utils.Number(j)]))
  {
    var a, b := NatToString(i), NatToString(j);
    IntToStringChars(i);
    IntToStringChars(j);
    PiecesSkipEmpty(a, b);
    TwoInts(i, j);
    IntListAssigns(n, a + ",," + b + ",", [i, j]);
    var ns := Numbers([i, j]);
    assert ns == [Utils.Number(i), Utils.Number(j)];
  }

  /** Two integers' texts parse back. */
  lemma TwoInts(i: nat, j: nat)
    ensures ParseInts([NatToString(i), NatToString(j)]) == Some([i, j])
  {
    var ps := [NatToString(i), NatToString(j)];
    forall k | 0 <= k < 2 ensures ParseInt(Strip(ps[k])) == Some([i as int, j as int][k]) {
      if k == 0 { NatTextParses(i); } else { NatTextParses(j); }
    }
    ParseIntsAll(ps, [i, j]);
  }

  /** `int(str(i).strip()) == i` for a natural `i`. */
  lemma NatTextParses(i: nat)
    ensures ParseInt(Strip(NatToString(i))) == Some(i as int)
  {
    IntTextParses(i);
    assert IntToString(i) == NatToString(i);
  }

  /** `int(str(i).strip()) == i`. */
  lemma IntTextParses(i: int)
    ensures ParseInt(Strip(IntToString(i))) == Some(i)
  {
    IntToStringChars(i);
    ParseIntRoundTrip(i, "", "");
    assert "" + IntToString(i) + "" == IntToString(i);
  }

  /** Pieces that each parse give the list of their integers. */
  lemma ParseIntsAll(pieces: seq<string>, ns: seq<int>)
    requires |pieces| == |ns|
    requires forall k :: 0 <= k < |pieces| ==> ParseInt(Strip(pieces[k])) == Some(ns[k])
    ensures ParseInts(pieces) == Some(ns)
  {
    var r := ParseInts(pieces);
    assert r.Some?;
    forall k | 0 <= k < |ns| ensures r.value[k] == ns[k] {
      assert Some(r.value[k]) == ParseInt(Strip(pieces[k])) == Some(ns[k]);
    }
    assert r.value == ns;
  }

  /** A `list:int:` pair whose pieces all parse assigns their tuple. */
  lemma IntListAssigns(n: string, value: string, ns: seq<int>)
    requires ParseInts(NonEmptyPieces(Split(value, {','}))) == Some(ns)
    ensures Action("list:int:" + n, value) == Assign(n, Utils.Tuple(Numbers(ns)))
  {
    assert "list:int:" + n == Core.KindPrefix(Core.IntListVar) + n;
    DecodeKeyRoundTrip(Core.IntListVar, n);
  }

  /** `a,,b,` has the non-empty pieces a and b. */
  lemma PiecesSkipEmpty(a: string, b: string)
    requires a != [] && b != [] && ',' !in a && ',' !in b
    ensures NonEmptyPieces(Split(a + ",," + b + ",", {','})) == [a, b]
  {
    var ps := [a, "", b, ""];
    forall k | 0 <= k < |ps| ensures ',' !in ps[k] {}
    SplitJoin(ps, ',', {','});
    JoinGapped(a, b);
    NonEmptyGapped(a, b);
  }

  lemma JoinGapped(a: string, b: string)
    ensures Join([a, "", b, ""], ",") == a + ",," + b + ","
  {
    var ps := [a, "", b, ""];
    assert ps[1..] == ["", b, ""] && ps[1..][1..] == [b, ""] && ps[1..][1..][1..] == [""];
    assert Join([b, ""], ",") == b + "," + "";
    assert Join(["", b, ""], ",") == "" + "," + (b + ",");
    assert Join(ps, ",") == a + "," + ("," + b + ",");
  }

  lemma NonEmptyGapped(a: string, b: string)
    requires a != [] && b != []
    ensures NonEmptyPieces([a, "", b, ""]) == [a, b]
  {
    NonEmptyPiecesConcat([a, ""], [b, ""]);
    NonEmptyPiecesConcat([a], [""]);
    NonEmptyPiecesConcat([b], [""]);
    NonEmptyPiecesOne(a);
    NonEmptyPiecesOne(b);
    NonEmptyPiecesOne("");
    assert [a, "", b, ""] == [a, ""] + [b, ""];
    assert [a, ""] == [a] + [""] && [b, ""] == [b] + [""];
  }

  lemma {:induction false} NonEmptyPiecesKeepsAll(pieces: seq<string>)
    requires forall k :: 0 <= k < |pieces| ==> pieces[k] != []
    ensures NonEmptyPieces(pieces) == pieces
    decreases |pieces|
  {
    if pieces != [] {
      NonEmptyPiecesKeepsAll(pieces[1..]);
    }
  }

  /** `[str(i.strip()) for i in value.split(",") if i]`. */
  function StrippedPieces(value: string): (r: seq<string>)
    ensures |r| == |NonEmptyPieces(Split(value, {','}))|
    ensures forall k :: 0 <= k < |r| ==> r[k] == Strip(NonEmptyPieces(Split(value, {','}))[k])
  {
    var pieces := NonEmptyPieces(Split(value, {','}));
    seq(|pieces|, k requires 0 <= k < |pieces| => Strip(pieces[k]))
  }

  /** `[int(i.strip()) for i in pieces]`: None when some piece is not an
      integer, which raises ValueError. */
  function ParseInts(pieces: seq<string>): (r: Option<seq<int>>)
    ensures r.Some? ==> |r.value| == |pieces|
    ensures r.Some? ==> forall k :: 0 <= k < |pieces| ==> ParseInt(Strip(pieces[k])) == Some(r.value[k])
    ensures r.None? <==> exists k :: 0 <= k < |pieces| && ParseInt(Strip(pieces[k])).None?
  {
    if pieces == [] then Some([])
    else
      match ParseInt(Strip(pieces[0]))
      case None => None
      case Some(n) =>
        match ParseInts(pieces[1..])
        case None =>
          ParseIntsFailsLater(pieces);
          None
        case Some(ns) =>
          ConsPointwise(pieces, n, ns, p => ParseInt(Strip(p)));
          Some([n] + ns)
  }

  /** A piece after the first that does not parse is a piece that does not parse. */
  lemma ParseIntsFailsLater(pieces: seq<string>)
    requires pieces != []
    requires exists k :: 0 <= k < |pieces[1..]| && ParseInt(Strip(pieces[1..][k])).None?
    ensures exists k :: 0 <= k < |pieces| && ParseInt(Strip(pieces[k])).None?
  {
    var k :| 0 <= k < |pieces[1..]| && ParseInt(Strip(pieces[1..][k])).None?;
    assert pieces[k + 1] == pieces[1..][k];
  }

  /** The first piece's value in front of the rest's values, piece by piece. */
  lemma ConsPointwise(pieces: seq<string>, n: int, ns: seq<int>, f: string -> Option<int>)
    requires pieces != [] && f(pieces[0]) == Some(n)
    requires |ns| == |pieces| - 1
    requires forall k :: 0 <= k < |pieces[1..]| ==> f(pieces[1..][k]) == Some(ns[k])
    ensures forall k :: 0 <= k < |pieces| ==> f(pieces[k]) == Some(([n] + ns)[k])
  {
    forall k | 0 <= k < |pieces| ensures f(pieces[k]) == Some(([n] + ns)[k]) {
      if k > 0 {
        assert pieces[k] == pieces[1..][k - 1];
      }
    }
  }

  function Numbers(ns: seq<int>): (r: seq<Utils.PyValue>)
    ensures |r| == |ns| && forall k :: 0 <= k < |ns| ==> r[k] == Utils.Number(ns[k])
  {
    seq(|ns|, k requires 0 <= k < |ns| => Utils.Number(ns[k]))
  }

  function Texts(ss: seq<string>): (r: seq<Utils.PyValue>)
    ensures |r| == |ss| && forall k :: 0 <= k < |ss| ==> r[k] == Utils.Text(ss[k])
  {
    seq(|ss|, k requires 0 <= k < |ss| => Utils.Text(ss[k]))
  }

  /** What one request pair does to `params`. */
  datatype KeyAction =
    | Assign(name: string, value: Utils.PyValue)  // params[name] = value
    | Skip                                        // `continue`: params unchanged
    | Raise(error: PyException)                   // the exception leaves the view

  /** A value of the type a tag declares: a stripped string, an integer, a
      tuple of stripped strings, a tuple of integers. */
  predicate HasKind(k: Core.VarKind, v: Utils.PyValue)
  {
    match k
    case StrVar => v.Text? && Trimmed(v.s)
    case IntVar => v.Number?
    case ListVar => v.Tuple? && forall j :: 0 <= j < |v.items| ==> v.items[j].Text? && Trimmed(v.items[j].s)
    case IntListVar => v.Tuple? && forall j :: 0 <= j < |v.items| ==> v.items[j].Number?
  }

  /** One iteration of the decoding loop, for an unquoted key and value. */
  function Action(key: string, value: string): KeyAction
  {
    var (kind, name) := DecodeKey(key);
    match kind
    case IntListVar =>
      (match ParseInts(NonEmptyPieces(Split(value, {','})))
       case None => Raise(ValueError)
       case Some(ns) => Assign(name, Utils.Tuple(Numbers(ns))))
    case ListVar => Assign(name, Utils.Tuple(Texts(StrippedPieces(value))))
    case IntVar =>
      (match ParseInt(value)
       case None => Skip
       case Some(n) => Assign(name, Utils.Number(n)))
    case StrVar => Assign(name, Utils.Text(Strip(value)))
  }

  /** An assignment always has the type its key declares; a scalar integer
      that does not parse is skipped, but a list piece that does not parse
      raises ValueError. */
  lemma ActionSpec(key: string, value: string)
    ensures var r := Action(key, value);
            && (r.Assign? ==> r.name == DecodeKey(key).1 && HasKind(DecodeKey(key).0, r.value))
            && (r.Skip? <==> DecodeKey(key).0 == Core.IntVar && ParseInt(value).None?)
            && (r.Raise? <==> DecodeKey(key).0 == Core.IntListVar && ParseInts(NonEmptyPieces(Split(value, {','}))).None?)
            && (r.Raise? ==> r.error == ValueError)
  {
  }

  /** `str(i)` for each integer, comma-joined, decodes to those integers. */
  lemma IntListRoundTrip(n: string, ns: seq<int>)
    ensures Action("list:int:" + n, Join(seq(|ns|, k requires 0 <= k < |ns| => IntToString(ns[k])), ",")) ==
            Assign(n, Utils.Tuple(Numbers(ns)))
  {
    var texts := seq(|ns|, k requires 0 <= k < |ns| => IntToString(ns[k]));
    forall k | 0 <= k < |texts| ensures ',' !in texts[k] && texts[k] != [] {
      IntToStringChars(ns[k]);
    }
    PiecesOfJoin(texts);
    forall k | 0 <= k < |texts| ensures ParseInt(Strip(texts[k])) == Some(ns[k]) {
      IntTextParses(ns[k]);
    }
    ParseIntsAll(texts, ns);
    IntListAssigns(n, Join(texts, ","), ns);
  }

  /** Request values are `unicode`: a no-break space is whitespace to
      `int()` ... */
  lemma IntNoBreakSpace(n: string)
    ensures Action("int:" + n, "\U{A0}5") == Assign(n, Utils.Number(5))
  {
    IntRoundTrip(n, 5, "\U{A0}", "");
    assert "\U{A0}" + IntToString(5) + "" == "\U{A0}5";
  }

  /** ... and to `strip()` ... */
  lemma TextNoBreakSpace()
    ensures Action("n", "\U{A0}a") == Assign("n", Utils.Text("a"))
  {
    DecodeKeyRoundTrip(Core.StrVar, "n");
    assert Core.KindPrefix(Core.StrVar) + "n" == "n";
    StripPadded("\U{A0}", "a", "");
    assert "\U{A0}" + "a" + "" == "\U{A0}a";
  }

  /** ... and `int()` takes whitespace between the sign and the digits, so
      `int:n=- 5` assigns -5. */
  lemma IntSignGap(n: string)
    ensures Action("int:" + n, "- 5") == Assign(n, Utils.Number(-5))
  {
    SpacedSignParses();
    IntAssigns(n, "- 5", -5);
  }

  lemma SpacedSignParses()
    ensures ParseInt("- 5") == Some(-5)
  {
    assert ParseInt("" + ['-'] + " " + NatToString(5) + "") == Some(-5) by {
      ParseIntSignGap(5, '-', "", " ", "");
    }
    assert "" + ['-'] + " " + NatToString(5) + "" == "- 5";
  }

  /** An `int:` pair whose value parses assigns that integer. */
  lemma IntAssigns(n: string, value: string, i: int)
    requires ParseInt(value) == Some(i)
    ensures Action("int:" + n, value) == Assign(n, Utils.Number(i))
  {
    assert "int:" + n == Core.KindPrefix(Core.IntVar) + n;
    DecodeKeyRoundTrip(Core.IntVar, n);
  }

  /** `str(i)` is a non-empty text of a sign and digits: no comma, no whitespace. */
  lemma IntToStringChars(i: int)
    ensures IntToString(i) != [] && ',' !in IntToString(i) && Trimmed(IntToString(i))
  {
    var t := IntToString(i);
    if i < 0 {
      assert t[1..] == NatToString(-i);
      assert IsDigit(t[|t| - 1]);
    } else {
      assert IsDigit(t[0]);
    }
    assert IsDigit(t[|t| - 1]);
    assert forall j :: 0 <= j < |t| ==> t[j] == '-' || IsDigit(t[j]) by {
      if i < 0 {
        forall j | 1 <= j < |t| ensures IsDigit(t[j]) { assert t[j] == t[1..][j - 1]; }
      }
    }
  }

  /** Comma-joined stripped non-empty strings decode to those strings. */
  lemma StringListRoundTrip(n: string, ss: seq<string>)
    requires !("int:" <= n)
    requires forall k :: 0 <= k < |ss| ==> ss[k] != [] && Trimmed(ss[k]) && ',' !in ss[k]
    ensures Action("list:" + n, Join(ss, ",")) == Assign(n, Utils.Tuple(Texts(ss)))
  {
    ListAction(n, Join(ss, ","));
    PiecesOfJoin(ss);
    assert StrippedPieces(Join(ss, ",")) == ss;
  }

  /** A `list:` key that is not `list:int:` assigns the stripped pieces. */
  lemma ListAction(n: string, value: string)
    requires !("int:" <= n)
    ensures Action("list:" + n, value) == Assign(n, Utils.Tuple(Texts(StrippedPieces(value))))
  {
    assert "list:" + n == Core.KindPrefix(Core.ListVar) + n;
    DecodeKeyRoundTrip(Core.ListVar, n);
  }

  /** Splitting a comma-join of non-empty comma-free pieces gives the pieces. */
  lemma PiecesOfJoin(ss: seq<string>)
    requires forall k :: 0 <= k < |ss| ==> ss[k] != [] && ',' !in ss[k]
    ensures NonEmptyPieces(Split(Join(ss, ","), {','})) == ss
  {
    if ss == [] {
      assert Split(Join(ss, ","), {','}) == [""];
    } else {
      SplitJoin(ss, ',', {','});
      NonEmptyPiecesKeepsAll(ss);
    }
  }

  /** A whitespace-only list piece is kept, as the empty string. */
  lemma BlankPieceKept(n: string, blank: string)
    requires !("int:" <= n)
    requires blank != [] && AllSpace(blank) && ',' !in blank
    ensures Action("list:" + n, blank) == Assign(n, Utils.Tuple([Utils.Text("")]))
  {
    ListAction(n, blank);
    SplitPiece(blank, {','});
    NonEmptyPiecesKeepsAll([blank]);
    assert StrippedPieces(blank) == [""];
    assert Texts([""]) == [Utils.Text("")];
  }

  /** `str(i)` as a scalar `int:` value decodes to i, whitespace around it
      included. */
  lemma IntRoundTrip(n: string, i: int, pre: string, post: string)
    requires AllSpace(pre) && AllSpace(post)
    ensures Action("int:" + n, pre + IntToString(i) + post) == Assign(n, Utils.Number(i))
  {
    assert "int:" + n == Core.KindPrefix(Core.IntVar) + n;
    DecodeKeyRoundTrip(Core.IntVar, n);
    ParseIntRoundTrip(i, pre, post);
  }

  // ---------------------------------------------------------------------------
  // The decoding loop of execute_endpoint
  // ---------------------------------------------------------------------------

  /** The assignments the pairs make, in order. */
  function Assignments(pairs: seq<(string, string)>): (r: seq<(string, Utils.PyValue)>)
    ensures |r| <= |pairs|
  {
    if pairs == [] then []
    else
      var init := pairs[..|pairs| - 1];
      var a := Action(pairs[|pairs| - 1].0, pairs[|pairs| - 1].1);
      Assignments(init) + (if a.Assign? then [(a.name, a.value)] else [])
  }

  /** Some pair raises. */
  predicate SomeRaise(pairs: seq<(string, string)>)
  {
    pairs != [] &&
    (SomeRaise(pairs[..|pairs| - 1]) || Action(pairs[|pairs| - 1].0, pairs[|pairs| - 1].1).Raise?)
  }

  /** A pair that raises makes SomeRaise hold ... */
  lemma {:induction false} SomeRaiseAt(pairs: seq<(string, string)>, i: nat)
    requires i < |pairs| && Action(pairs[i].0, pairs[i].1).Raise?
    ensures SomeRaise(pairs)
    decreases |pairs|
  {
    if i < |pairs| - 1 {
      var init := pairs[..|pairs| - 1];
      assert init[i] == pairs[i];
      SomeRaiseAt(init, i);
    }
  }

  /** ... and SomeRaise names a pair that raises. */
  lemma {:induction false} SomeRaiseIndex(pairs: seq<(string, string)>) returns (i: nat)
    requires SomeRaise(pairs)
    ensures i < |pairs| && Action(pairs[i].0, pairs[i].1).Raise?
    decreases |pairs|
  {
    var init := pairs[..|pairs| - 1];
    if SomeRaise(init) {
      i := SomeRaiseIndex(init);
      assert init[i] == pairs[i];
    } else {
      i := |pairs| - 1;
    }
  }

  /** One pair's action applied to the outcome so far; an exception stays. */
  function Apply(sofar: Result<Core.Params>, a: KeyAction): Result<Core.Params>
  {
    match sofar
    case Failure(e) => Failure(e)
    case Success(params) =>
      match a
      case Raise(e) => Failure(e)
      case Skip => Success(params)
      case Assign(n, v) => Success(Utils.Insert(params, n, v))
  }

  /** The loop as a function: the params after the pairs, or the exception. */
  function Decoded(pairs: seq<(string, string)>): (r: Result<Core.Params>)
    ensures r.Failure? ==> r.error == ValueError
  {
    if pairs == [] then Success([])
    else
      var last := pairs[|pairs| - 1];
      ActionSpec(last.0, last.1);
      Apply(Decoded(pairs[..|pairs| - 1]), Action(last.0, last.1))
  }

  /** Decoding one more pair applies its action. */
  lemma DecodedPrefix(pairs: seq<(string, string)>, i: nat)
    requires i < |pairs|
    ensures Decoded(pairs[..i + 1]) == Apply(Decoded(pairs[..i]), Action(pairs[i].0, pairs[i].1))
  {
    assert pairs[..i + 1][..i] == pairs[..i];
  }

  /** Decoding fails exactly when some pair raises; otherwise params is the
      ordered dict built from the assignments, so each name holds the value
      of the last pair assigning it, and names appear in first-assignment
      order. */
  lemma {:induction false} DecodedSpec(pairs: seq<(string, string)>)
    ensures Decoded(pairs).Failure? <==> SomeRaise(pairs)
    ensures Decoded(pairs).Success? ==> Decoded(pairs).value == Utils.FromPairs(Assignments(pairs))
    decreases |pairs|
  {
    if pairs != [] {
      var init := pairs[..|pairs| - 1];
      var last := pairs[|pairs| - 1];
      var a := Action(last.0, last.1);
      DecodedSpec(init);
      if Decoded(pairs).Success? {
        var ps := Assignments(pairs);
        if a.Assign? {
          assert ps == Assignments(init) + [(a.name, a.value)];
          assert ps[..|ps| - 1] == Assignments(init);
        } else {
          assert ps == Assignments(init);
        }
      }
    }
  }

  /** Once a prefix of the pairs raises, decoding raises that exception. */
  lemma {:induction false} DecodedFailureStops(pairs: seq<(string, string)>, n: nat)
    requires n <= |pairs| && Decoded(pairs[..n]).Failure?
    ensures Decoded(pairs) == Decoded(pairs[..n])
    decreases |pairs| - n
  {
    if n < |pairs| {
      assert pairs[..n + 1][..n] == pairs[..n];
      DecodedFailureStops(pairs, n + 1);
    } else {
      assert pairs[..n] == pairs;
    }
  }

  /** A scalar `int:` pair that does not parse leaves params as it was. */
  lemma SkippedPairChangesNothing(pairs: seq<(string, string)>, key: string, value: string)
    requires Decoded(pairs).Success?
    requires DecodeKey(key).0 == Core.IntVar && ParseInt(value).None?
    ensures Decoded(pairs + [(key, value)]) == Decoded(pairs)
  {
    assert (pairs + [(key, value)])[..|pairs|] == pairs;
  }

  /** `execute_endpoint`'s loop over the request pairs. */
  method DecodeParams(pairs: seq<(string, string)>) returns (r: Result<Core.Params>)
    ensures r == Decoded(pairs)
  {
    var params: Core.Params := [];
    for i := 0 to |pairs|
      invariant Decoded(pairs[..i]) == Success(params)
    {
      DecodedPrefix(pairs, i);
      var (key, value) := pairs[i];
      var (kind, name) := DecodeKey(key);
      if kind == Core.IntListVar {
        var ns := ParseInts(NonEmptyPieces(Split(value, {','})));
        if ns.None? {
          ActionSpec(key, value);
          DecodedFailureStops(pairs, i + 1);
          return Failure(ValueError);
        }
        params := Utils.Insert(params, name, Utils.Tuple(Numbers(ns.value)));
      } else if kind == Core.ListVar {
        var stripped := StrippedPieces(value);
        params := Utils.Insert(params, name, Utils.Tuple(Texts(stripped)));
      } else if kind == Core.IntVar {
        var n := ParseInt(value);
        if n.None? {
          continue;
        }
        params := Utils.Insert(params, name, Utils.Number(n.value));
      } else {
        params := Utils.Insert(params, name, Utils.Text(Strip(value)));
      }
    }
    assert pairs[..|pairs|] == pairs;
    return Success(params);
  }

  // ---------------------------------------------------------------------------
  // retrieve_endpoint_form: the union of the variables of the endpoint's queries
  // ---------------------------------------------------------------------------

  /** Every query before index n lists its variables. */
  predicate AllListed(engine: Core.Engine, queries: seq<Core.Query>, n: nat)
    requires n <= |queries|
  {
    forall i :: 0 <= i < n ==> Core.Variables(engine, queries[i]).Success?
  }

  /** variables is the union of the lists of the queries before index n. */
  ghost predicate UnionOf(engine: Core.Engine, queries: seq<Core.Query>, n: nat, variables: set<string>)
    requires n <= |queries| && AllListed(engine, queries, n)
  {
    forall v :: v in variables <==> exists j :: 0 <= j < n && v in Core.Variables(engine, queries[j]).value
  }

  /** A query that lists its variables extends AllListed by one. */
  lemma AllListedStep(engine: Core.Engine, queries: seq<Core.Query>, n: nat)
    requires n < |queries| && Core.Variables(engine, queries[n]).Success?
    requires AllListed(engine, queries, n)
    ensures AllListed(engine, queries, n + 1)
  {
  }

  /** Adding the next query's list extends the union by one query. */
  lemma UnionStep(engine: Core.Engine, queries: seq<Core.Query>, n: nat, variables: set<string>, names: seq<string>)
    requires n < |queries| && Core.Variables(engine, queries[n]) == Success(names)
    requires AllListed(engine, queries, n + 1) && UnionOf(engine, queries, n, variables)
    ensures UnionOf(engine, queries, n + 1, variables + (set v | v in names))
  {
    var added := set v | v in names;
    forall v | v in variables + added
      ensures exists j :: 0 <= j < n + 1 && v in Core.Variables(engine, queries[j]).value
    {
      if v in added {
        assert 0 <= n < n + 1 && v in Core.Variables(engine, queries[n]).value;
      } else {
        var j :| 0 <= j < n && v in Core.Variables(engine, queries[j]).value;
        assert 0 <= j < n + 1 && v in Core.Variables(engine, queries[j]).value;
      }
    }
    forall v | exists j :: 0 <= j < n + 1 && v in Core.Variables(engine, queries[j]).value
      ensures v in variables + added
    {
      var j :| 0 <= j < n + 1 && v in Core.Variables(engine, queries[j]).value;
      if j < n {
        assert v in variables;
      } else {
        assert v in names;
      }
    }
  }

  /** `variables.update(query.get_variables())` for each query in turn: the
      union of all their variables, or the first query's exception. */
  method FormVariables(engine: Core.Engine, queries: seq<Core.Query>) returns (r: Result<set<string>>)
    ensures r.Success? <==> AllListed(engine, queries, |queries|)
    ensures r.Success? ==> forall v :: v in r.value <==>
              exists i :: 0 <= i < |queries| && v in Core.Variables(engine, queries[i]).value
    ensures r.Failure? ==> exists i :: (0 <= i < |queries| && AllListed(engine, queries, i) &&
                                        Core.Variables(engine, queries[i]) == Failure(r.error))
  {
    var variables: set<string> := {};
    for i := 0 to |queries|
      invariant AllListed(engine, queries, i)
      invariant UnionOf(engine, queries, i, variables)
    {
      var names := Core.GetVariables(engine, queries[i]);
      if names.Failure? {
        return Failure(names.error);
      }
      AllListedStep(engine, queries, i);
      UnionStep(engine, queries, i, variables, names.value);
      variables := variables + (set v | v in names.value);
    }
    return Success(variables);
  }
}
