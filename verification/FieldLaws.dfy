/** How many fields there are, and which are empty, for every IFS: also one that has blanks and other
    characters together. */
module FieldLaws {
  import opened FieldSplit

  // ---------- blanks that make no difference ----------

  /** Nothing, or an IFS character, stands at the end. */
  predicate OpenEnd(ifs: string, es: seq<Element>) {
    es == [] || Ends(ifs, es[|es| - 1])
  }

  predicate OpenFront(ifs: string, es: seq<Element>) {
    es == [] || Ends(ifs, es[0])
  }

  lemma {:induction false} BlanksConcat(ifs: string, a: seq<Element>, b: seq<Element>)
    ensures (var r := DropBlanks(ifs, a);
             DropBlanks(ifs, a + b) == if r == [] then DropBlanks(ifs, b) else r + b)
  {
    hide Blank;
    if a == [] {
      assert a + b == b;
    } else {
      assert (a + b)[1..] == a[1..] + b;
      BlanksConcat(ifs, a[1..], b);
    }
  }

  /** A separator that goes on to the end of `a` takes in a blank behind it. */
  lemma {:induction false} SeparatorConcat(ifs: string, a: seq<Element>, x: Element, b: seq<Element>)
    requires a != [] && Ends(ifs, a[0]) && Blank(ifs, x)
    ensures (var r := DropSeparator(ifs, a);
             if r == [] then DropSeparator(ifs, a + ([x] + b)) == DropSeparator(ifs, a + b)
             else DropSeparator(ifs, a + ([x] + b)) == r + ([x] + b) && DropSeparator(ifs, a + b) == r + b)
    ensures DropSeparator(ifs, a) != [] ==> exists k :: 0 < k < |a| && DropSeparator(ifs, a) == a[k..]
    decreases |a|
  {
    hide Blank, Ends, DropBlanks;
    var y := [x] + b;
    BlankFirst(ifs, x, b);
    assert (a + y)[1..] == a[1..] + y && (a + b)[1..] == a[1..] + b;
    SuffixOf(ifs, a);
    if !Blank(ifs, a[0]) {
      BlanksConcat(ifs, a[1..], y);
      BlanksConcat(ifs, a[1..], b);
    } else if |a| == 1 {
      assert a[1..] + y == y && a[1..] + b == b;
      assert DropSeparator(ifs, y) == DropSeparator(ifs, b);
    } else if Ends(ifs, a[1]) {
      SeparatorConcat(ifs, a[1..], x, b);
    } else {
      assert (a[1..] + y)[0] == a[1] && (a[1..] + b)[0] == a[1];
    }
  }

  lemma BlankFirst(ifs: string, x: Element, b: seq<Element>)
    requires Blank(ifs, x)
    ensures Ends(ifs, x) && ([x] + b)[1..] == b
    ensures DropBlanks(ifs, [x] + b) == DropBlanks(ifs, b)
    ensures DropSeparator(ifs, [x] + b) == DropSeparator(ifs, b)
  {
    assert ([x] + b)[1..] == b;
  }

  lemma {:induction false} BlanksSuffix(ifs: string, a: seq<Element>)
    ensures DropBlanks(ifs, a) == a[|a| - |DropBlanks(ifs, a)|..]
  {
    hide Blank;
    if a != [] && Blank(ifs, a[0]) {
      BlanksSuffix(ifs, a[1..]);
    }
  }

  lemma {:induction false} SuffixOf(ifs: string, a: seq<Element>)
    ensures DropSeparator(ifs, a) == a[|a| - |DropSeparator(ifs, a)|..]
  {
    hide Blank, Ends;
    if a != [] && Ends(ifs, a[0]) {
      if Blank(ifs, a[0]) {
        SuffixOf(ifs, a[1..]);
      } else {
        BlanksSuffix(ifs, a[1..]);
      }
    }
  }

  lemma {:induction false} FieldConcat(ifs: string, a: seq<Element>, b: seq<Element>)
    ensures (var n := FirstField(ifs, a);
             FirstField(ifs, a + b) == if n < |a| then n else |a| + FirstField(ifs, b))
  {
    hide Ends;
    if a == [] {
      assert a + b == b;
    } else {
      assert (a + b)[1..] == a[1..] + b;
      FieldConcat(ifs, a[1..], b);
    }
  }

  lemma FieldsSkipBlank(ifs: string, es: seq<Element>)
    requires es != [] && Blank(ifs, es[0])
    ensures Fields(ifs, es) == Fields(ifs, es[1..])
  {
  }

  lemma FieldsTurn(ifs: string, es: seq<Element>)
    requires es != [] && !Blank(ifs, es[0])
    ensures (var n := FirstField(ifs, es);
             Fields(ifs, es) == [es[..n]] + if n == |es| then [] else Fields(ifs, DropSeparator(ifs, es[n..])))
  {
  }

  lemma NoFields(ifs: string)
    ensures Fields(ifs, []) == []
  {
  }

  /** A blank with an IFS character, or the end of the text, before or behind it makes no difference. */
  lemma {:induction false} BlanksCollapse(ifs: string, a: seq<Element>, x: Element, b: seq<Element>)
    requires Blank(ifs, x) && (OpenEnd(ifs, a) || OpenFront(ifs, b))
    ensures Fields(ifs, a + ([x] + b)) == Fields(ifs, a + b)
    decreases |a|
  {
    hide Fields, Blank, Ends, DropBlanks, DropSeparator, FirstField;
    var y := [x] + b;
    BlankFirst(ifs, x, b);
    if a == [] {
      assert a + y == y && a + b == b;
      FieldsSkipBlank(ifs, y);
    } else if Blank(ifs, a[0]) {
      assert (a + y)[1..] == a[1..] + y && (a + b)[1..] == a[1..] + b;
      FieldsSkipBlank(ifs, a + y);
      FieldsSkipBlank(ifs, a + b);
      BlanksCollapse(ifs, a[1..], x, b);
    } else {
      var n := FirstField(ifs, a);
      FieldsTurn(ifs, a + y);
      FieldsTurn(ifs, a + b);
      FieldConcat(ifs, a, y);
      FieldConcat(ifs, a, b);
      if n < |a| {
        BlankBehindField(ifs, a, x, b, n);
      } else {
        BlankAfterField(ifs, a, x, b);
      }
    }
  }

  lemma {:induction false} BlankBehindField(ifs: string, a: seq<Element>, x: Element, b: seq<Element>, n: nat)
    requires Blank(ifs, x) && (OpenEnd(ifs, a) || OpenFront(ifs, b))
    requires n == FirstField(ifs, a) < |a|
    ensures (a + ([x] + b))[..n] == (a + b)[..n]
    ensures Fields(ifs, DropSeparator(ifs, (a + ([x] + b))[n..])) == Fields(ifs, DropSeparator(ifs, (a + b)[n..]))
    decreases |a|, 0
  {
    hide Fields, Blank, Ends, DropBlanks, DropSeparator, FirstField;
    var y, c := [x] + b, a[n..];
    assert (a + y)[n..] == c + y && (a + b)[n..] == c + b;
    SeparatorConcat(ifs, c, x, b);
    var r := DropSeparator(ifs, c);
    if r != [] {
      var k :| 0 < k < |c| && r == c[k..];
      assert r[|r| - 1] == a[|a| - 1];
      BlanksCollapse(ifs, r, x, b);
    }
  }

  lemma BlankAfterField(ifs: string, a: seq<Element>, x: Element, b: seq<Element>)
    requires Blank(ifs, x) && a != [] && !Blank(ifs, a[0]) && FirstField(ifs, a) == |a|
    requires OpenEnd(ifs, a) || OpenFront(ifs, b)
    ensures Fields(ifs, a + ([x] + b)) == Fields(ifs, a + b)
  {
    hide Fields, Blank, Ends, DropBlanks, DropSeparator;
    var y := [x] + b;
    BlankFirst(ifs, x, b);
    FieldsTurn(ifs, a + y);
    FieldsTurn(ifs, a + b);
    FieldConcat(ifs, a, y);
    FieldConcat(ifs, a, b);
    assert FirstField(ifs, y) == 0 && FirstField(ifs, b) == 0;
    assert (a + y)[..|a|] == a && (a + b)[..|a|] == a && (a + y)[|a|..] == y && (a + b)[|a|..] == b;
    NoFields(ifs);
    if b == [] {
      assert DropSeparator(ifs, b) == [] by {
        NothingToDrop(ifs);
      }
    }
  }

  lemma NothingToDrop(ifs: string)
    ensures DropSeparator(ifs, []) == []
  {
  }

  // ---------- the tidy form of a text ----------

  /** Leaves out every blank that makes no difference; `after`: an IFS character or nothing stands before. */
  function Tidy(ifs: string, es: seq<Element>, after: bool): seq<Element> {
    if es == [] then []
    else if Blank(ifs, es[0]) && (after || OpenFront(ifs, es[1..])) then Tidy(ifs, es[1..], after)
    else [es[0]] + Tidy(ifs, es[1..], Ends(ifs, es[0]))
  }

  /** No blank has an IFS character or an end beside it. */
  predicate IsTidy(ifs: string, es: seq<Element>, after: bool) {
    if es == [] then true
    else
      && (Blank(ifs, es[0]) ==> !after && !OpenFront(ifs, es[1..]))
      && IsTidy(ifs, es[1..], Ends(ifs, es[0]))
  }

  lemma {:induction false} TidyFront(ifs: string, es: seq<Element>, after: bool)
    ensures (var t := Tidy(ifs, es, after);
             !OpenFront(ifs, es) ==> t != [] && t[0] == es[0])
  {
    if es != [] {
      BlankEndsToo(ifs, es[0]);
    }
  }

  lemma BlankEndsToo(ifs: string, e: Element)
    ensures Blank(ifs, e) ==> Ends(ifs, e)
  {
  }

  lemma {:induction false} TidyIsTidy(ifs: string, es: seq<Element>, after: bool)
    ensures IsTidy(ifs, Tidy(ifs, es, after), after)
  {
    hide Blank, Ends;
    if es != [] {
      BlankEndsToo(ifs, es[0]);
      if Blank(ifs, es[0]) && (after || OpenFront(ifs, es[1..])) {
        TidyIsTidy(ifs, es[1..], after);
      } else {
        var rest := Tidy(ifs, es[1..], Ends(ifs, es[0]));
        TidyIsTidy(ifs, es[1..], Ends(ifs, es[0]));
        TidyFront(ifs, es[1..], Ends(ifs, es[0]));
        assert ([es[0]] + rest)[1..] == rest;
      }
    }
  }

  /** A text has the fields of its tidy form. */
  lemma {:induction false} TidyKeepsFields(ifs: string, a: seq<Element>, es: seq<Element>)
    ensures Fields(ifs, a + es) == Fields(ifs, a + Tidy(ifs, es, OpenEnd(ifs, a)))
    decreases |es|
  {
    hide Fields, Blank, Ends;
    var after := OpenEnd(ifs, a);
    if es != [] {
      assert es == [es[0]] + es[1..];
      if Blank(ifs, es[0]) && (after || OpenFront(ifs, es[1..])) {
        BlanksCollapse(ifs, a, es[0], es[1..]);
        TidyKeepsFields(ifs, a, es[1..]);
      } else {
        var rest := Tidy(ifs, es[1..], Ends(ifs, es[0]));
        TidyKeepsFields(ifs, a + [es[0]], es[1..]);
        assert (a + [es[0]]) + es[1..] == a + es;
        assert (a + [es[0]]) + rest == a + ([es[0]] + rest);
      }
    }
  }

  lemma {:induction false} TidyKeepsMarks(ifs: string, es: seq<Element>, after: bool)
    ensures Marks(ifs, Tidy(ifs, es, after)) == Marks(ifs, es)
    ensures Kept(ifs, Tidy(ifs, es, after)) == Kept(ifs, es)
  {
    hide Blank, Ends;
    if es != [] {
      BlankEndsToo(ifs, es[0]);
      if Blank(ifs, es[0]) && (after || OpenFront(ifs, es[1..])) {
        TidyKeepsMarks(ifs, es[1..], after);
        assert [] + Kept(ifs, es[1..]) == Kept(ifs, es[1..]);
      } else {
        var rest := Tidy(ifs, es[1..], Ends(ifs, es[0]));
        TidyKeepsMarks(ifs, es[1..], Ends(ifs, es[0]));
        assert ([es[0]] + rest)[1..] == rest;
      }
    }
  }

  // ---------- counting fields ----------

  /** The unquoted IFS characters. */
  function Delimiters(ifs: string, es: seq<Element>): nat {
    if es == [] then 0 else (if Ends(ifs, es[0]) then 1 else 0) + Delimiters(ifs, es[1..])
  }

  /** Those with an IFS character or nothing before them. */
  function Doubled(ifs: string, es: seq<Element>, after: bool): nat {
    if es == [] then 0
    else (if after && Ends(ifs, es[0]) then 1 else 0) + Doubled(ifs, es[1..], Ends(ifs, es[0]))
  }

  function EmptyFields(fields: seq<seq<Element>>): nat {
    if fields == [] then 0 else (if fields[0] == [] then 1 else 0) + EmptyFields(fields[1..])
  }

  lemma {:induction false} TidyBehind(ifs: string, es: seq<Element>, after: bool, n: nat)
    requires IsTidy(ifs, es, after) && n == FirstField(ifs, es) < |es|
    ensures IsTidy(ifs, es[n + 1..], true) && DropSeparator(ifs, es[n..]) == es[n + 1..]
    ensures Delimiters(ifs, es) == 1 + Delimiters(ifs, es[n + 1..])
    ensures Doubled(ifs, es, after) == (if after && n == 0 then 1 else 0) + Doubled(ifs, es[n + 1..], true)
    ensures es[n + 1..] == [] ==> !Blank(ifs, es[n])
  {
    if Ends(ifs, es[0]) {
      assert n == 0 && es[n..] == es;
      FrontStays(ifs, es);
    } else {
      TidyBehind(ifs, es[1..], false, n - 1);
      assert es[1..][n - 1..] == es[n..] && es[1..][n..] == es[n + 1..];
    }
  }

  lemma FrontStays(ifs: string, es: seq<Element>)
    requires es != [] && Ends(ifs, es[0]) && IsTidy(ifs, es[1..], true)
    requires Blank(ifs, es[0]) ==> !OpenFront(ifs, es[1..])
    ensures DropSeparator(ifs, es) == es[1..]
  {
    var rest := es[1..];
    if rest != [] {
      assert !Blank(ifs, rest[0]);
    }
  }

  /** In a tidy text every IFS character ends exactly one field. */
  lemma {:induction false} TidyCount(ifs: string, es: seq<Element>)
    requires IsTidy(ifs, es, true)
    ensures |Fields(ifs, es)| == Delimiters(ifs, es) + if OpenEnd(ifs, es) then 0 else 1
    ensures EmptyFields(Fields(ifs, es)) == Doubled(ifs, es, true)
    decreases |es|
  {
    hide Fields, Blank, Ends, DropSeparator, Delimiters, Doubled, FirstField;
    NoDelimiters(ifs);
    NoFields(ifs);
    if es != [] {
      var n := FirstField(ifs, es);
      FieldsTurn(ifs, es);
      if n < |es| {
        TidyBehind(ifs, es, true, n);
        var rest := es[n + 1..];
        TidyCount(ifs, rest);
        EmptyFirst(es[..n], Fields(ifs, rest));
        if rest != [] {
          assert rest[|rest| - 1] == es[|es| - 1];
        } else {
          assert es[n] == es[|es| - 1];
        }
      } else {
        NoneEnds(ifs, es);
        EmptyFirst(es[..n], []);
      }
    }
  }

  lemma EmptyFirst(field: seq<Element>, rest: seq<seq<Element>>)
    ensures EmptyFields([field] + rest) == (if field == [] then 1 else 0) + EmptyFields(rest)
  {
    assert ([field] + rest)[1..] == rest;
  }

  lemma NoDelimiters(ifs: string)
    ensures Delimiters(ifs, []) == 0 && forall after :: Doubled(ifs, [], after) == 0
  {
  }

  lemma {:induction false} NoneEnds(ifs: string, es: seq<Element>)
    requires FirstField(ifs, es) == |es|
    ensures Delimiters(ifs, es) == 0 && forall after :: Doubled(ifs, es, after) == 0
    ensures es != [] ==> !OpenEnd(ifs, es)
  {
    hide Ends;
    if es != [] {
      NoneEnds(ifs, es[1..]);
    }
  }

  lemma {:induction false} MarksAreDelimiters(ifs: string, es: seq<Element>, after: bool)
    ensures Marks(ifs, es) <= Delimiters(ifs, es)
    ensures IsTidy(ifs, es, after) ==> Doubled(ifs, es, after) <= Marks(ifs, es)
  {
    if es != [] {
      MarksAreDelimiters(ifs, es[1..], Ends(ifs, es[0]));
    }
  }

  /** For every IFS: once the blanks that make no difference are left out, each IFS character ends exactly one
      field, and so does the end of the text unless an IFS character stands there; and the empty fields are
      those of an IFS character with another one, or nothing, before it.  Hence each mark ends a field of its
      own, and there are no more empty fields than marks. */
  lemma EachMarkEndsAField(ifs: string, es: seq<Element>)
    ensures (var t := Tidy(ifs, es, true);
             && Fields(ifs, es) == Fields(ifs, t)
             && |Fields(ifs, es)| == Delimiters(ifs, t) + (if OpenEnd(ifs, t) then 0 else 1)
             && EmptyFields(Fields(ifs, es)) == Doubled(ifs, t, true)
             && Marks(ifs, t) == Marks(ifs, es))
    ensures |Fields(ifs, es)| >= Marks(ifs, es) >= EmptyFields(Fields(ifs, es))
  {
    hide Fields, Tidy, Delimiters, Doubled, Marks, IsTidy;
    var t := Tidy(ifs, es, true);
    TidyKeepsFields(ifs, [], es);
    assert [] + es == es && [] + t == t;
    TidyIsTidy(ifs, es, true);
    TidyKeepsMarks(ifs, es, true);
    TidyCount(ifs, t);
    MarksAreDelimiters(ifs, t, true);
  }

  lemma {:induction false} BlanksAreNoMarks(ifs: string, es: seq<Element>)
    requires forall c :: c in ifs ==> c == ' ' || c == '\t' || c == '\n'
    ensures Marks(ifs, es) == 0
  {
    if es != [] {
      BlanksAreNoMarks(ifs, es[1..]);
    }
  }

  /** With an IFS of nothing but spaces, tabs and newlines no field is empty, however many there are together. */
  lemma BlanksMakeNoEmptyField(ifs: string, es: seq<Element>)
    requires forall c :: c in ifs ==> c == ' ' || c == '\t' || c == '\n'
    ensures EmptyFields(Fields(ifs, es)) == 0
  {
    hide Fields, Tidy, Marks, EmptyFields;
    BlanksAreNoMarks(ifs, es);
    EachMarkEndsAField(ifs, es);
  }

  lemma {:induction false} NothingToTidy(ifs: string, es: seq<Element>, after: bool)
    requires ' ' !in ifs && '\t' !in ifs && '\n' !in ifs
    ensures Tidy(ifs, es, after) == es
  {
    if es != [] {
      NothingToTidy(ifs, es[1..], Ends(ifs, es[0]));
      assert [es[0]] + es[1..] == es;
    }
  }

  /** With an IFS without them every IFS character ends a field, and so does the end of the text unless an IFS
      character stands there; the empty fields are those of an IFS character with another, or nothing, before it. */
  lemma EveryMarkCounts(ifs: string, es: seq<Element>)
    requires ' ' !in ifs && '\t' !in ifs && '\n' !in ifs
    ensures |Fields(ifs, es)| == Delimiters(ifs, es) + (if OpenEnd(ifs, es) then 0 else 1)
    ensures EmptyFields(Fields(ifs, es)) == Doubled(ifs, es, true)
  {
    hide Fields, Tidy, Marks, EmptyFields, Delimiters, Doubled, OpenEnd;
    NothingToTidy(ifs, es, true);
    EachMarkEndsAField(ifs, es);
  }
}
