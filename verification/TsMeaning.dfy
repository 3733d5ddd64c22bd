/** Printing an annotation as TypeScript keeps its meaning
    (scripts/export_ui_contract.py, `ts_type`). */
module TsMeaning {
  import opened Common
  import opened TsTypes
  import opened TsParser

  ghost predicate Single(s: string) {
    |Alts(s)| == 1 && Elem(s, Alts(s)[0])
  }

  /** A printed type reads back, and one without a bar reads as a single element: the
      test `"|" in inner` misses no union. */
  ghost predicate Printed(s: string) {
    Good(s) && ('|' !in s ==> Single(s))
  }

  lemma ElemPrinted(s: string, t: Ts)
    requires Elem(s, t)
    ensures Printed(s) && Alts(s) == [t]
  {
    ElemGood(s, t);
  }

  lemma ArrayPrinted(s: string)
    requires Printed(s)
    ensures Printed(AsArray(s)) && Alts(AsArray(s)) == [Array(One(Alts(s)))]
  {
    hide Good, Elem, Alts;
    if '|' in s {
      ParenElem(s);
      ArrayElem("(" + s + ")", One(Alts(s)));
      assert "(" + s + ")[]" == "(" + s + ")" + "[]";
      ElemPrinted(AsArray(s), Array(One(Alts(s))));
    } else {
      ArrayElem(s, Alts(s)[0]);
      ElemPrinted(AsArray(s), Array(One(Alts(s))));
    }
  }

  function ConcatAlts(texts: seq<string>): seq<Ts> {
    if texts == [] then [] else Alts(texts[0]) + ConcatAlts(texts[1..])
  }

  lemma {:induction false} JoinPrinted(texts: seq<string>)
    requires texts != [] && forall t :: t in texts ==> Printed(t)
    ensures Printed(JoinBars(texts)) && Alts(JoinBars(texts)) == ConcatAlts(texts)
  {
    hide Good, Elem, Alts;
    if |texts| == 1 {
      assert texts[1..] == [];
      assert Alts(texts[0]) + [] == Alts(texts[0]);
    } else {
      assert texts[0] in texts;
      JoinPrinted(texts[1..]);
      BarGood(texts[0], JoinBars(texts[1..]));
      assert '|' in " | ";
      assert '|' in JoinBars(texts);
    }
  }

  /** No class in it is named by a keyword, so every name can stand as a type. */
  ghost predicate Spellable(a: Ann) {
    forall n :: n in Names(a) ==> !IsKeyword(n)
  }

  lemma PartsSpellable(args: seq<Ann>)
    requires Spellable(UnionOf(args)) || Spellable(TupleOf(args))
    ensures forall x :: x in args ==> Spellable(x)
  {
    forall x | x in args ensures Spellable(x) {
      var i :| 0 <= i < |args| && args[i] == x;
      assert forall n :: n in Names(args[i]) ==> n in Names(UnionOf(args)) && n in Names(TupleOf(args));
    }
  }

  /** What is faithful is spellable. */
  lemma {:induction false} FaithfulIsSpellable(a: Ann)
    requires Faithful(a)
    ensures Spellable(a)
    decreases a
  {
    match a
    case Annotated(x) => FaithfulIsSpellable(x);
    case UnionOf(args) =>
      forall i | 0 <= i < |args| ensures Spellable(args[i]) {
        assert args[i] in args;
        FaithfulIsSpellable(args[i]);
      }
    case ListOf(x) => FaithfulIsSpellable(x);
    case TupleOf(args) =>
      FaithfulIsSpellable(args[0]);
      assert Names(args[1]) == {};
    case MapOf(k, v) =>
      FaithfulIsSpellable(k);
      FaithfulIsSpellable(v);
    case _ =>
  }

  lemma {:induction false} Prints(a: Ann)
    requires Supported(a) && Formed(a) && Spellable(a)
    ensures Printed(Render(a))
    decreases a
  {
    hide Printed, Alts, Good, Elem;
    match a
    case NoneType => LitElem(LNone); ElemPrinted("null", Word("null"));
    case Scalar(k) =>
      OwnWordsAreTypes(ScalarText(k));
      WordElem(ScalarText(k));
      ElemPrinted(ScalarText(k), Word(ScalarText(k)));
    case Named(n) =>
      WordElem(n);
      ElemPrinted(n, Word(n));
    case Annotated(x) => Prints(x);
    case ListOf(x) =>
      Prints(x);
      ArrayPrinted(Render(x));
    case TupleOf(args) =>
      PartsSpellable(args);
      if Members(args) == [] {
        OwnWordsAreTypes("unknown");
        WordElem("unknown");
        ArrayElem("unknown", Word("unknown"));
        assert "unknown" + "[]" == "unknown[]";
        ElemPrinted("unknown[]", Array(Word("unknown")));
      } else {
        Prints(Members(args)[0]);
        ArrayPrinted(Render(Members(args)[0]));
      }
    case MapOf(k, v) =>
      Prints(k);
      Prints(v);
      MapPrinted(Render(k), Render(v));
    case UnionOf(args) =>
      PartsSpellable(args);
      var texts := RenderAll(args);
      forall t | t in Unique(texts) ensures Printed(t) {
        var i :| 0 <= i < |texts| && texts[i] == t;
        assert args[i] in args;
        Prints(args[i]);
      }
      JoinPrinted(Unique(texts));
    case LiteralOf(values) =>
      var texts := DumpAll(values);
      forall t | t in Unique(texts) ensures Printed(t) {
        var i :| 0 <= i < |texts| && texts[i] == t;
        LitElem(values[i]);
        ElemPrinted(t, LeafOf(values[i]));
      }
      JoinPrinted(Unique(texts));
  }

  lemma MapPrinted(k: string, v: string)
    requires Printed(k) && Printed(v)
    ensures Printed("Record<" + k + ", " + v + ">")
    ensures Alts("Record<" + k + ", " + v + ">") == [Record(One(Alts(k)), One(Alts(v)))]
  {
    hide Good, Elem, Alts;
    RecordElem(k, v);
    ElemPrinted("Record<" + k + ", " + v + ">", Record(One(Alts(k)), One(Alts(v))));
  }

  // ------------------------------------------------------------ meaning

  lemma OneAccepts(env: Env, alts: seq<Ts>, j: Json)
    requires alts != []
    ensures Accepts(env, One(alts), j) <==> AnyAccepts(env, alts, j)
  {
    if |alts| == 1 {
      assert alts == [alts[0]];
    }
  }

  lemma {:induction false} ConcatAccepts(env: Env, texts: seq<string>, j: Json)
    ensures AnyAccepts(env, ConcatAlts(texts), j)
      <==> exists t :: t in texts && AnyAccepts(env, Alts(t), j)
  {
    hide Alts, Accepts;
    if texts != [] {
      var more := ConcatAlts(texts[1..]);
      ConcatAccepts(env, texts[1..], j);
      AppendAccepts(env, Alts(texts[0]), more, j);
      assert forall t :: t in texts <==> t == texts[0] || t in texts[1..];
      hide AnyAccepts;
    }
  }

  lemma AppendAccepts(env: Env, a: seq<Ts>, b: seq<Ts>, j: Json)
    ensures AnyAccepts(env, a + b, j) <==> AnyAccepts(env, a, j) || AnyAccepts(env, b, j)
  {
    hide Accepts;
    var c := a + b;
    assert forall i :: 0 <= i < |a| ==> a[i] == c[i];
    assert forall i :: 0 <= i < |b| ==> b[i] == c[|a| + i];
  }

  ghost predicate TextAccepts(env: Env, s: string, j: Json) {
    AnyAccepts(env, Alts(s), j)
  }

  lemma LitMeaning(env: Env, l: Lit, j: Json)
    ensures TextAccepts(env, Dumps(l), j) <==> j == JsonOf(l)
  {
    LitElem(l);
    ElemPrinted(Dumps(l), LeafOf(l));
    hide Dumps, Alts;
    SingleAccepts(env, LeafOf(l), j);
  }

  lemma SingleAccepts(env: Env, t: Ts, j: Json)
    ensures AnyAccepts(env, [t], j) <==> Accepts(env, t, j)
  {
    assert [t][0] == t;
  }

  lemma WordMeaning(env: Env, w: string, j: Json)
    requires IsName(w) && !IsKeyword(w)
    ensures TextAccepts(env, w, j) <==> WordAccepts(env, w, j)
  {
    WordElem(w);
    ElemPrinted(w, Word(w));
    hide Alts;
    SingleAccepts(env, Word(w), j);
  }

  lemma ArrayMeaning(env: Env, s: string, j: Json)
    requires Printed(s)
    ensures TextAccepts(env, AsArray(s), j)
      <==> j.JArr? && forall i :: 0 <= i < |j.items| ==> TextAccepts(env, s, j.items[i])
  {
    ArrayPrinted(s);
    assert Alts(s) != [];
    hide Alts, Printed;
    var e := One(Alts(s));
    SingleAccepts(env, Array(e), j);
    forall y ensures Accepts(env, e, y) <==> TextAccepts(env, s, y) {
      OneAccepts(env, Alts(s), y);
    }
    hide One, TextAccepts, AnyAccepts;
    assert Accepts(env, Array(e), j) <==> TextAccepts(env, AsArray(s), j);
  }

  lemma MapMeaning(env: Env, k: string, v: string, j: Json)
    requires Printed(k) && Printed(v)
    ensures TextAccepts(env, "Record<" + k + ", " + v + ">", j)
      <==> && j.JObj? && Complete(env, Keys(One(Alts(k))), j.entries)
           && forall key :: key in j.entries ==>
                && (TextAccepts(env, k, JStr(key)) || exists x: real :: env.spells(x, key) && TextAccepts(env, k, JNum(x)))
                && TextAccepts(env, v, j.entries[key])
  {
    MapPrinted(k, v);
    assert Alts(k) != [] && Alts(v) != [];
    hide Alts, Printed;
    var ek, ev := One(Alts(k)), One(Alts(v));
    SingleAccepts(env, Record(ek, ev), j);
    forall y ensures Accepts(env, ek, y) <==> TextAccepts(env, k, y) {
      OneAccepts(env, Alts(k), y);
    }
    forall y ensures Accepts(env, ev, y) <==> TextAccepts(env, v, y) {
      OneAccepts(env, Alts(v), y);
    }
    assert Accepts(env, Record(ek, ev), j) <==> TextAccepts(env, "Record<" + k + ", " + v + ">", j);
    hide One, TextAccepts, AnyAccepts, Complete, Keys;
  }

  lemma JoinMeaning(env: Env, texts: seq<string>, j: Json)
    requires texts != [] && forall t :: t in texts ==> Printed(t)
    ensures TextAccepts(env, JoinBars(Unique(texts)), j) <==> exists t :: t in texts && TextAccepts(env, t, j)
  {
    hide Printed;
    JoinPrinted(Unique(texts));
    ConcatAccepts(env, Unique(texts), j);
    hide AnyAccepts, Alts;
  }

  lemma VariadicMembers(args: seq<Ann>)
    requires Variadic(args)
    ensures Members(args) == [args[0]]
  {
    assert args[1..] == [args[1]] && args[1..][1..] == [];
    assert Members(args[1..]) == [];
  }

  lemma ScalarMeaning(env: Env, k: Kind, j: Json)
    ensures TextAccepts(env, ScalarText(k), j) <==> KindHolds(k, j)
  {
    hide TextAccepts;
    OwnWordsAreTypes(ScalarText(k));
    WordMeaning(env, ScalarText(k), j);
  }

  lemma NamedMeaning(env: Env, n: string, j: Json)
    requires IsName(n) && !IsReserved(n)
    ensures TextAccepts(env, n, j) <==> env.meaning(n, j)
  {
    hide TextAccepts;
    WordMeaning(env, n, j);
  }

  /** What the printed text reads as accepts exactly the values the annotation denotes. */
  lemma {:induction false} Meaning(env: Env, a: Ann, j: Json)
    requires Supported(a) && Formed(a) && Faithful(a)
    ensures TextAccepts(env, Render(a), j) <==> Denotes(env, a, j)
    decreases a, 2
  {
    FaithfulIsSpellable(a);
    hide TextAccepts, Printed, Spellable, Names, WordAccepts, KindHolds, IsReserved, KeysOf, OpenKeys;
    match a
    case NoneType => LitMeaning(env, LNone, j);
    case Scalar(k) => ScalarMeaning(env, k, j);
    case Named(n) => NamedMeaning(env, n, j);
    case Annotated(x) => Meaning(env, x, j);
    case ListOf(x) =>
      Prints(x);
      ArrayMeaning(env, Render(x), j);
      forall y ensures TextAccepts(env, Render(x), y) <==> Denotes(env, x, y) { Meaning(env, x, y); }
    case TupleOf(args) =>
      VariadicMembers(args);
      Prints(args[0]);
      ArrayMeaning(env, Render(args[0]), j);
      forall y ensures TextAccepts(env, Render(args[0]), y) <==> Denotes(env, args[0], y) {
        Meaning(env, args[0], y);
      }
    case MapOf(k, v) => MapOfMeaning(env, k, v, j);
    case UnionOf(args) => UnionMeaning(env, args, j);
    case LiteralOf(values) => LiteralMeaning(env, values, j);
  }

  /** What the key type and the entries come to, when the mapping's parts keep theirs. */
  lemma MapReads(env: Env, k: Ann, v: Ann, j: Json)
    requires Supported(k) && Formed(k) && Faithful(k) && Supported(v) && Formed(v) && Faithful(v)
    ensures TextAccepts(env, Render(MapOf(k, v)), j)
      <==> Denotes(env, MapOf(k, v), j) && Complete(env, KeysOf(k), j.entries)
    decreases MapOf(k, v), 0
  {
    hide TextAccepts, Printed, Complete, KeysOf, Keys, Alts, One, Spellable;
    FaithfulIsSpellable(k);
    FaithfulIsSpellable(v);
    Prints(k);
    Prints(v);
    KeysAre(k);
    MapMeaning(env, Render(k), Render(v), j);
    forall y ensures TextAccepts(env, Render(k), y) <==> Denotes(env, k, y) { Meaning(env, k, y); }
    forall y ensures TextAccepts(env, Render(v), y) <==> Denotes(env, v, y) { Meaning(env, v, y); }
    assert Render(MapOf(k, v)) == "Record<" + Render(k) + ", " + Render(v) + ">";
    hide Render;
  }

  lemma MapOfMeaning(env: Env, k: Ann, v: Ann, j: Json)
    requires Supported(k) && Formed(k) && Faithful(k) && Supported(v) && Formed(v) && Faithful(v)
    requires OpenKeys(KeysOf(k))
    ensures TextAccepts(env, Render(MapOf(k, v)), j) <==> Denotes(env, MapOf(k, v), j)
    decreases MapOf(k, v), 1
  {
    MapReads(env, k, v, j);
    if j.JObj? {
      OpenIsComplete(env, KeysOf(k), j.entries);
    }
    hide TextAccepts, Complete, KeysOf, Render, Supported;
  }

  lemma OpenIsComplete(env: Env, keys: set<Key>, entries: map<seq<Unit>, Json>)
    requires OpenKeys(keys)
    ensures Complete(env, keys, entries)
  {
  }

  /** Where every class stands for everything, a key type that is not open requires a key. */
  lemma ClosedIsIncomplete(keys: set<Key>)
    requires !OpenKeys(keys)
    ensures !Complete(EVERYTHING, keys, map[])
  {
    if NoKey !in keys {
      if units :| TextKey(units) in keys && AnyText !in keys {
        assert Required(EVERYTHING, keys, units);
      } else if n :| NumberKey(n) in keys && AnyNumber !in keys {
        assert NamesNumber(EVERYTHING, keys, n as real) && EVERYTHING.spells(n as real, []);
        assert Required(EVERYTHING, keys, []);
      } else {
        var w :| OfClass(w) in keys && !(AnyText in keys && AnyNumber in keys);
        assert EVERYTHING.meaning(w, JStr([])) && EVERYTHING.meaning(w, JNum(0.0));
        assert NamesNumber(EVERYTHING, keys, 0.0) && EVERYTHING.spells(0.0, []);
        assert Required(EVERYTHING, keys, []);
      }
    }
  }

  const EVERYTHING := Env((w, j) => true, (x, key) => true)

  // The key type of a printed mapping is that of its annotation.

  function KeySet(alts: seq<Ts>): set<Key> {
    set t | t in alts :: KeyOf(t)
  }

  ghost predicate Flat(alts: seq<Ts>) {
    forall t :: t in alts ==> !t.OneOf?
  }

  lemma {:induction false} ConcatKeys(texts: seq<string>)
    ensures forall k :: k in KeySet(ConcatAlts(texts)) <==> exists t :: t in texts && k in KeySet(Alts(t))
    ensures (forall t :: t in texts ==> Flat(Alts(t))) ==> Flat(ConcatAlts(texts))
  {
    hide Alts;
    if texts != [] {
      ConcatKeys(texts[1..]);
      var more := ConcatAlts(texts[1..]);
      assert forall t :: t in Alts(texts[0]) + more <==> t in Alts(texts[0]) || t in more;
      assert KeySet(Alts(texts[0]) + more) == KeySet(Alts(texts[0])) + KeySet(more);
      assert forall t :: t in texts <==> t == texts[0] || t in texts[1..];
      hide KeySet;
    }
  }

  lemma JoinKeys(texts: seq<string>)
    requires texts != [] && forall t :: t in texts ==> Printed(t) && Flat(Alts(t))
    ensures forall k :: k in KeySet(Alts(JoinBars(Unique(texts)))) <==> exists t :: t in texts && k in KeySet(Alts(t))
    ensures Flat(Alts(JoinBars(Unique(texts))))
  {
    hide Printed, Flat;
    JoinPrinted(Unique(texts));
    ConcatKeys(Unique(texts));
    hide Alts, KeySet;
  }

  lemma OneKey(s: string, t: Ts)
    requires Alts(s) == [t] && !t.OneOf?
    ensures KeySet(Alts(s)) == {KeyOf(t)} && Flat(Alts(s))
  {
    hide Alts;
    assert forall x :: x in [t] <==> x == t;
  }

  lemma {:induction false} AltsKeys(a: Ann)
    requires Supported(a) && Formed(a) && Spellable(a)
    ensures KeySet(Alts(Render(a))) == KeysOf(a) && Flat(Alts(Render(a)))
    decreases a
  {
    hide Printed, Alts, KeySet, Flat;
    match a
    case NoneType =>
      LitElem(LNone);
      ElemPrinted("null", Word("null"));
      OneKey("null", Word("null"));
    case Scalar(k) =>
      OwnWordsAreTypes(ScalarText(k));
      WordElem(ScalarText(k));
      ElemPrinted(ScalarText(k), Word(ScalarText(k)));
      OneKey(ScalarText(k), Word(ScalarText(k)));
    case Named(n) =>
      WordElem(n);
      ElemPrinted(n, Word(n));
      OneKey(n, Word(n));
    case Annotated(x) => AltsKeys(x);
    case ListOf(x) =>
      Prints(x);
      ArrayPrinted(Render(x));
      OneKey(AsArray(Render(x)), Array(One(Alts(Render(x)))));
    case TupleOf(args) =>
      TupleAlts(args);
      var s := Render(a);
      assert Alts(s) == [Alts(s)[0]];
      OneKey(s, Alts(s)[0]);
    case MapOf(k, v) =>
      Prints(k);
      Prints(v);
      MapPrinted(Render(k), Render(v));
      OneKey(Render(a), Record(One(Alts(Render(k))), One(Alts(Render(v)))));
    case UnionOf(args) => UnionKeys(args);
    case LiteralOf(values) => LiteralKeys(values);
  }

  lemma UnionKeys(args: seq<Ann>)
    requires Supported(UnionOf(args)) && Formed(UnionOf(args)) && Spellable(UnionOf(args))
    ensures KeySet(Alts(Render(UnionOf(args)))) == KeysOf(UnionOf(args)) && Flat(Alts(Render(UnionOf(args))))
    decreases UnionOf(args), 0
  {
    hide Printed, Alts, KeySet, Flat;
    PartsSpellable(args);
    var texts := RenderAll(args);
    forall i | 0 <= i < |args|
      ensures Printed(texts[i]) && KeySet(Alts(texts[i])) == KeysOf(args[i]) && Flat(Alts(texts[i]))
    {
      assert args[i] in args;
      Prints(args[i]);
      AltsKeys(args[i]);
    }
    JoinKeys(texts);
    assert Render(UnionOf(args)) == JoinBars(Unique(texts));
    hide Render, Unique, JoinBars;
  }

  lemma LiteralKeys(values: seq<Lit>)
    requires values != []
    ensures KeySet(Alts(Render(LiteralOf(values)))) == KeysOf(LiteralOf(values))
    ensures Flat(Alts(Render(LiteralOf(values))))
  {
    hide Printed, Alts, KeySet, Flat;
    var texts := DumpAll(values);
    forall i | 0 <= i < |values|
      ensures Printed(texts[i]) && KeySet(Alts(texts[i])) == {KeyOf(LeafOf(values[i]))} && Flat(Alts(texts[i]))
    {
      LitElem(values[i]);
      ElemPrinted(texts[i], LeafOf(values[i]));
      OneKey(texts[i], LeafOf(values[i]));
    }
    JoinKeys(texts);
    assert Render(LiteralOf(values)) == JoinBars(Unique(texts));
    hide Render, Unique, JoinBars, Dumps, KeyOf, LeafOf;
  }

  lemma KeysAre(a: Ann)
    requires Supported(a) && Formed(a) && Spellable(a)
    ensures Keys(One(Alts(Render(a)))) == KeysOf(a)
  {
    hide Alts, Render, KeysOf, Supported, Formed, Spellable, KeySet, Flat;
    AltsKeys(a);
    FlatKeys(Alts(Render(a)));
  }

  lemma FlatKeys(alts: seq<Ts>)
    requires Flat(alts)
    ensures Keys(One(alts)) == KeySet(alts)
  {
    if |alts| == 1 {
      assert alts[0] in alts;
      assert forall t :: t in alts <==> t == alts[0];
    }
  }

  lemma UnionMeaning(env: Env, args: seq<Ann>, j: Json)
    requires Supported(UnionOf(args)) && Formed(UnionOf(args)) && Faithful(UnionOf(args))
    ensures TextAccepts(env, Render(UnionOf(args)), j) <==> Denotes(env, UnionOf(args), j)
    decreases UnionOf(args), 0
  {
    hide TextAccepts, Printed, Spellable, Names;
    var texts := RenderAll(args);
    forall i | 0 <= i < |args|
      ensures Printed(texts[i]) && (TextAccepts(env, texts[i], j) <==> Denotes(env, args[i], j))
    {
      assert args[i] in args;
      FaithfulIsSpellable(args[i]);
      Prints(args[i]);
      Meaning(env, args[i], j);
    }
    JoinMeaning(env, texts, j);
    assert Render(UnionOf(args)) == JoinBars(Unique(texts));
    hide Render, Unique, JoinBars;
    assert Denotes(env, UnionOf(args), j) <==> exists i :: 0 <= i < |args| && Denotes(env, args[i], j);
    hide Denotes;
  }

  lemma LiteralMeaning(env: Env, values: seq<Lit>, j: Json)
    requires values != []
    ensures TextAccepts(env, Render(LiteralOf(values)), j) <==> Denotes(env, LiteralOf(values), j)
    decreases LiteralOf(values), 0
  {
    hide TextAccepts, Printed;
    var texts := DumpAll(values);
    forall i | 0 <= i < |values|
      ensures Printed(texts[i]) && (TextAccepts(env, texts[i], j) <==> j == JsonOf(values[i]))
    {
      LitElem(values[i]);
      ElemPrinted(texts[i], LeafOf(values[i]));
      LitMeaning(env, values[i], j);
    }
    JoinMeaning(env, texts, j);
    hide Unique, JoinBars, Dumps, JsonOf;
  }

  // ------------------------------------------------------------ main results

  /** Every supported annotation prints as text that reads as one TypeScript type, unless
      a class is named by a keyword. */
  lemma PrintedTextParses(a: Ann)
    requires Supported(a) && Formed(a) && Spellable(a)
    ensures Parse(Render(a)) == Some(One(Alts(Render(a))))
  {
    Prints(a);
    var s := Render(a);
    hide Render, Elem;
    assert s + "" == s && Bounded("");
    MoreStops(Alts(s), "");
  }

  /** Printing preserves meaning, through unions, de-duplication, arrays of unions,
      mappings, literals and `Annotated`. */
  lemma PrintingPreservesMeaning(env: Env, a: Ann, j: Json)
    requires Supported(a) && Formed(a) && Faithful(a)
    ensures Parse(Render(a)).Some?
    ensures Accepts(env, Parse(Render(a)).value, j) <==> Denotes(env, a, j)
  {
    FaithfulIsSpellable(a);
    PrintedTextParses(a);
    Prints(a);
    Meaning(env, a, j);
    OneAccepts(env, Alts(Render(a)), j);
  }

  /** Of all tuples only `tuple[X, ...]` keeps its meaning: any other prints as an
      array of any length of its first member's type. */
  lemma TupleKeptExactly(env: Env, args: seq<Ann>)
    requires Supported(TupleOf(args)) && Formed(TupleOf(args)) && Spellable(TupleOf(args))
    requires Members(args) != [] ==> Faithful(Members(args)[0])
    ensures Parse(Render(TupleOf(args))).Some?
    ensures (forall j :: Accepts(env, Parse(Render(TupleOf(args))).value, j) <==> Denotes(env, TupleOf(args), j))
      <==> Variadic(args)
  {
    PrintedTextParses(TupleOf(args));
    var t := Parse(Render(TupleOf(args))).value;
    if Variadic(args) {
      VariadicMembers(args);
      forall j ensures Accepts(env, t, j) <==> Denotes(env, TupleOf(args), j) {
        PrintingPreservesMeaning(env, TupleOf(args), j);
      }
    } else {
      TupleAlts(args);
      hide Parse, Alts;
      if args == [] {
        var two := JArr([JNull]);
        assert Accepts(env, Word("unknown"), JNull);
        assert Accepts(env, t, two) && !Denotes(env, TupleOf(args), two);
      } else {
        assert Accepts(env, t, JArr([])) && !Denotes(env, TupleOf(args), JArr([]));
      }
    }
  }

  lemma TupleAlts(args: seq<Ann>)
    requires Supported(TupleOf(args)) && Formed(TupleOf(args)) && Spellable(TupleOf(args))
    ensures |Alts(Render(TupleOf(args)))| == 1 && Alts(Render(TupleOf(args)))[0].Array?
    ensures Members(args) == [] ==> Alts(Render(TupleOf(args)))[0].elem == Word("unknown")
  {
    PartsSpellable(args);
    hide Alts, Printed, Spellable;
    if Members(args) == [] {
      OwnWordsAreTypes("unknown");
      WordElem("unknown");
      ArrayElem("unknown", Word("unknown"));
      assert "unknown" + "[]" == "unknown[]";
      ElemPrinted("unknown[]", Array(Word("unknown")));
    } else {
      Prints(Members(args)[0]);
      ArrayPrinted(Render(Members(args)[0]));
    }
  }

  /** A class name reads as a class that keeps its meaning, whatever it stands for,
      exactly when it is not one of TypeScript's own words. */
  lemma {:induction false} NameKeptExactly(n: string)
    requires IsName(n)
    ensures (Parse(Render(Named(n))) == Some(Word(n))
             && forall env: Env, j :: Accepts(env, Word(n), j) <==> Denotes(env, Named(n), j))
      <==> !IsReserved(n)
  {
    if IsKeyword(n) {
      KeywordsDoNotRead(n);
      hide Parse, KeywordsOfLength;
    } else {
      WordReads(n);
      hide Parse, IsKeyword;
      if n in PREDEFINED {
        PredefinedIsLost(n);
      }
    }
  }

  const NOTHING := Env((w, j) => false, (x, key) => false)

  lemma PredefinedIsLost(n: string)
    requires n in PREDEFINED
    ensures exists env: Env, j :: !(Accepts(env, Word(n), j) <==> Denotes(env, Named(n), j))
  {
    if WordAccepts(NOTHING, n, Sample(n)) {
      assert Accepts(NOTHING, Word(n), Sample(n)) && !Denotes(NOTHING, Named(n), Sample(n));
    } else {
      assert !Accepts(EVERYTHING, Word(n), JStr([0])) && Denotes(EVERYTHING, Named(n), JStr([0]));
    }
  }

  lemma WordReads(n: string)
    requires IsName(n) && !IsKeyword(n)
    ensures Parse(n) == Some(Word(n))
  {
    WordElem(n);
    ElemPrinted(n, Word(n));
    hide Alts;
    assert n + "" == n && Bounded("");
    MoreStops(Alts(n), "");
  }

  lemma KeywordsDoNotRead(n: string)
    requires IsName(n) && IsKeyword(n)
    ensures Parse(n).None?
  {
    SpanStops(n, "");
    assert n + "" == n && n[0] in n && Skip(n) == n;
    KeywordIsNotRecord(n);
    hide IsKeyword;
    assert n[..|n|] == n;
    assert ParsePrimary(n).None?;
  }

  lemma KeywordIsNotRecord(n: string)
    requires IsKeyword(n)
    ensures n != "Record"
  {
    forall k | k in KeywordsOfLength(6) ensures k != [] && k[0] != 'R' {}
    hide KeywordsOfLength;
    assert "Record"[0] == 'R';
  }

  /** A value the predefined type accepts, where there is one. */
  function Sample(w: string): Json {
    if w == "null" then JNull
    else if w == "string" then JStr([])
    else if w == "number" then JNum(0.0)
    else if w == "object" then JArr([])
    else JBool(w != "false")
  }

  /** A mapping of faithful parts keeps its meaning, whatever the classes stand for, if
      and only if its key type requires no key: TypeScript wants every key of a closed
      `Record`, a dict holds the keys it holds. */
  lemma {:induction false} MapKeptExactly(k: Ann, v: Ann)
    requires Supported(k) && Formed(k) && Faithful(k) && Supported(v) && Formed(v) && Faithful(v)
    ensures Parse(Render(MapOf(k, v))).Some?
    ensures (forall env: Env, j :: Accepts(env, Parse(Render(MapOf(k, v))).value, j) <==> Denotes(env, MapOf(k, v), j))
      <==> OpenKeys(KeysOf(k))
  {
    FaithfulIsSpellable(k);
    FaithfulIsSpellable(v);
    PrintedTextParses(MapOf(k, v));
    hide Parse, Alts, Spellable, KeysOf, Render, Printed, Complete, OpenKeys, Denotes;
    var t := Parse(Render(MapOf(k, v))).value;
    Prints(MapOf(k, v));
    forall env: Env, j: Json
      ensures Accepts(env, t, j) <==> Denotes(env, MapOf(k, v), j) && Complete(env, KeysOf(k), j.entries)
    {
      MapReads(env, k, v, j);
      OneAccepts(env, Alts(Render(MapOf(k, v))), j) by { PrintedIsSome(Render(MapOf(k, v))); }
    }
    if OpenKeys(KeysOf(k)) {
      forall env: Env, j: Json | j.JObj? ensures Complete(env, KeysOf(k), j.entries) {
        OpenIsComplete(env, KeysOf(k), j.entries);
      }
    } else {
      ClosedIsIncomplete(KeysOf(k));
      EmptyIsDenoted(EVERYTHING, k, v);
      var empty := JObj(map[]);
      assert !Complete(EVERYTHING, KeysOf(k), empty.entries);
      assert !Accepts(EVERYTHING, t, empty) && Denotes(EVERYTHING, MapOf(k, v), empty);
    }
  }

  lemma PrintedIsSome(s: string)
    requires Printed(s)
    ensures Alts(s) != []
  {
  }

  lemma EmptyIsDenoted(env: Env, k: Ann, v: Ann)
    ensures Denotes(env, MapOf(k, v), JObj(map[]))
  {
  }

  /** One mapping that does not: `dict[Literal["a"], int]`, of which `{}` is a value. */
  lemma ClosedMapIsLost()
    ensures var a := MapOf(LiteralOf([LStr([97])]), Scalar(Int));
      Supported(a) && Formed(a) && !OpenKeys(KeysOf(a.key))
  {
    assert TextKey([97]) in KeysOf(LiteralOf([LStr([97])])) by {
      assert KeyOf(LeafOf([LStr([97])][0])) == TextKey([97]);
    }
  }
}
