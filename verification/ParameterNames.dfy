/** Which text between braces is a parameter. */
module ParameterNames {
  import opened AddressTemplates
  import opened Wrappers

  /** Its code point is that of a digit, a capital letter, the underscore or a small letter. */
  ghost predicate InCharacterClass(c: char) {
    var k := c as int;
    48 <= k <= 57 || 65 <= k <= 90 || k == 95 || 97 <= k <= 122
  }

  lemma {:induction false} WordRun(s: seq<Sym>, i: nat)
    requires i <= |s|
    ensures forall j :: i <= j < WordEnd(s, i) ==> IsWordSym(s[j])
    decreases |s| - i
  {
    if i < |s| && IsWordSym(s[i]) {
      WordRun(s, i + 1);
    }
  }

  lemma {:induction false} UnbracedStays(text: string, rest: string)
    requires '{' !in text && '}' !in text
    ensures Escape(text + rest) == Chars(text) + Escape(rest)
  {
    if text == "" {
      assert text + rest == rest;
      assert Chars(text) + Escape(rest) == Escape(rest);
    } else {
      assert text + rest == [text[0]] + (text[1..] + rest);
      UnbracedStays(text[1..], rest);
      EscapeSingle(text[0], text[1..] + rest);
      assert Chars(text) == [Ch(text[0])] + Chars(text[1..]);
      Assoc([Ch(text[0])], Chars(text[1..]), Escape(rest));
    }
  }

  lemma {:induction false} BracedStays(name: string)
    requires '{' !in name && '}' !in name
    ensures Escape("{" + name + "}") == Chars("{" + name + "}")
  {
    UnbracedStays(name, "}");
    assert "{" + name + "}" == "{" + (name + "}");
    EscapeSingle('{', name + "}");
    EscapeSingle('}', "");
    assert "}" == ['}'] + "";
    assert Chars("{" + name + "}") == [Ch('{')] + (Chars(name) + [Ch('}')]);
  }

  /** What stands between braces names a parameter exactly if it is a run of letters, digits and underscores. */
  lemma {:induction false} ParameterIff(name: string)
    requires '{' !in name && '}' !in name
    ensures Tokens(Escape("{" + name + "}")) == [Par(Chars(name))] <==>
      name != "" && forall j :: 0 <= j < |name| ==> InCharacterClass(name[j])
  {
    var s := Chars("{" + name + "}");
    BracedStays(name);
    forall j | 0 <= j < |name| ensures s[j + 1] == Ch(name[j]) {
      assert ("{" + name + "}")[j + 1] == name[j];
    }
    assert s[0] == Ch('{') && s[|name| + 1] == Ch('}');
    if name != "" && forall j :: 0 <= j < |name| ==> InCharacterClass(name[j]) {
      ReadsAsParameter(name, s);
    }
    if Tokens(s) == [Par(Chars(name))] {
      IsRun(name, s);
    }
  }

  ghost predicate Braced(name: string, s: seq<Sym>) {
    |s| == |name| + 2 && (forall j :: 0 <= j < |name| ==> s[j + 1] == Ch(name[j])) &&
    s[0] == Ch('{') && s[|name| + 1] == Ch('}')
  }

  lemma {:induction false} ReadsAsParameter(name: string, s: seq<Sym>)
    requires Braced(name, s) && name != "" && forall j :: 0 <= j < |name| ==> InCharacterClass(name[j])
    ensures Tokens(s) == [Par(Chars(name))]
  {
    forall j | 1 <= j < |name| + 1 ensures IsWordSym(s[j]) {
      assert s[(j - 1) + 1] == Ch(name[j - 1]);
    }
    WordEndIs(s, 1, |name| + 1);
    assert s[1..|name| + 1] == Chars(name);
    assert TokensAt(s, |s|) == [];
  }

  lemma {:induction false} IsRun(name: string, s: seq<Sym>)
    requires Braced(name, s) && Tokens(s) == [Par(Chars(name))]
    ensures name != "" && forall j :: 0 <= j < |name| ==> InCharacterClass(name[j])
  {
    assert Tokens(s)[0] == Par(Chars(name));
    var end := MatchAt(s, 0);
    assert end.Some? && Tokens(s)[0] == Par(s[1..end.value - 1]);
    assert |s[1..end.value - 1]| == |name|;
    WordRun(s, 1);
    forall j | 0 <= j < |name| ensures InCharacterClass(name[j]) {
      assert IsWordSym(s[j + 1]);
    }
  }

  // ----- which declarations are refused, and with what -----

  ghost predicate Repeats(names: seq<ParamName>, name: ParamName) {
    exists i, j :: 0 <= i < j < |names| && names[i] == names[j] == name
  }

  /** The names reported are those that occur more than once. */
  lemma {:induction false} DuplicatedExact(names: seq<ParamName>, name: ParamName)
    ensures name in Duplicated(names) <==> Repeats(names, name)
  {
    if names != [] {
      var n := |names| - 1;
      DuplicatedExact(names[..n], name);
      if Repeats(names[..n], name) {
        var i, j :| 0 <= i < j < n && names[..n][i] == names[..n][j] == name;
        assert names[i] == names[j];
      }
      if names[n] == name && names[n] in names[..n] {
        var i :| 0 <= i < n && names[..n][i] == names[n];
        assert names[i] == names[n];
      }
      if Repeats(names, name) {
        var i, j :| 0 <= i < j < |names| && names[i] == names[j] == name;
        assert names[..n][i] == name;
        assert j < n ==> names[..n][j] == name;
      }
    }
  }

  /** Python's `re` takes a word for a group name unless it starts with a digit. */
  ghost predicate DigitFirst(name: ParamName) {
    name != [] && name[0].Ch? && 48 <= name[0].c as int <= 57
  }

  /** A declaration is refused for the names that repeat, all of them at once, and otherwise for a digit in front. */
  lemma {:induction false} RefusedIff(t: Template, syntax: AddressSyntax)
    requires forall i :: 0 <= i < |Names(t)| ==> Names(t)[i] != []
    ensures match Compile(t, syntax)
            case Err(DuplicateParams(names)) =>
              names != {} && forall n :: n in names <==> Repeats(Names(t), n)
            case Err(BadGroupName) =>
              (forall n :: !Repeats(Names(t), n)) && exists i :: 0 <= i < |Names(t)| && DigitFirst(Names(t)[i])
            case Ok(_) =>
              (forall n :: !Repeats(Names(t), n)) && forall i :: 0 <= i < |Names(t)| ==> !DigitFirst(Names(t)[i])
  {
    forall n ensures n in Duplicated(Names(t)) <==> Repeats(Names(t), n) {
      DuplicatedExact(Names(t), n);
    }
    forall i | 0 <= i < |Names(t)| ensures IsGroupName(Names(t)[i]) <==> !DigitFirst(Names(t)[i]) {
    }
  }
}
