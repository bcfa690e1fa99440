/**
 The bracket check of the dashboard linter, against the grammar of balanced
 words over three kinds of brackets.
 */
module Brackets {
  import opened Options

  predicate IsOpen(c: char) {
    c == '(' || c == '[' || c == '{'
  }

  predicate IsClose(c: char) {
    c == ')' || c == ']' || c == '}'
  }

  function Closing(c: char): char
    requires IsOpen(c)
  {
    if c == '(' then ')' else if c == '[' then ']' else '}'
  }

  // ---------- The grammar ----------

  /** A derivation: the empty word, or an opened and closed inner word followed by another word. */
  datatype Derivation = Nothing | Pair(open: char, inside: Derivation, after: Derivation)

  predicate WellFormed(d: Derivation) {
    d.Nothing? || (IsOpen(d.open) && WellFormed(d.inside) && WellFormed(d.after))
  }

  function Yield(d: Derivation): seq<char>
    requires WellFormed(d)
  {
    if d.Nothing? then [] else [d.open] + Yield(d.inside) + [Closing(d.open)] + Yield(d.after)
  }

  ghost predicate IsBalancedWord(w: seq<char>) {
    exists d :: WellFormed(d) && Yield(d) == w
  }

  // ---------- Erasing escapes and quotes ----------

  /** The brackets left outside quotes and escapes, and whether a quote or an escape is still pending. */
  datatype Erased = Erased(word: seq<char>, inQuote: bool, escaped: bool)

  function Erase(s: seq<char>, inQuote: bool, escaped: bool): Erased {
    if s == [] then Erased([], inQuote, escaped)
    else if escaped then Erase(s[1..], inQuote, false)
    else if s[0] == '\\' then Erase(s[1..], inQuote, true)
    else if s[0] == '"' then Erase(s[1..], !inQuote, false)
    else
      var rest := Erase(s[1..], inQuote, false);
      if !inQuote && (IsOpen(s[0]) || IsClose(s[0])) then rest.(word := [s[0]] + rest.word) else rest
  }

  /** The language the check is meant to accept. */
  ghost predicate Accepted(s: seq<char>) {
    var e := Erase(s, false, false);
    !e.inQuote && IsBalancedWord(e.word)
  }

  // ---------- The check ----------

  /** Matching a word against a stack of open brackets; None when a closing bracket does not fit. */
  function Match(stack: seq<char>, w: seq<char>): Option<seq<char>>
    decreases |w|
  {
    if w == [] then Some(stack)
    else if IsOpen(w[0]) then Match(stack + [w[0]], w[1..])
    else if IsClose(w[0]) then
      if stack != [] && IsOpen(stack[|stack| - 1]) && Closing(stack[|stack| - 1]) == w[0]
      then Match(stack[..|stack| - 1], w[1..])
      else None
    else Match(stack, w[1..])
  }

  method Balanced(value: seq<char>) returns (ok: bool)
    ensures ok <==> Accepted(value)
  {
    var pairs := map[')' := '(', ']' := '[', '}' := '{'];
    var stack: seq<char> := [];
    var inQuote, escaped := false, false;
    ghost var target := Match([], Erase(value, false, false).word);
    ghost var closed := !Erase(value, false, false).inQuote;
    ErasedIsBrackets(value, false, false);
    MatchIsGrammar(Erase(value, false, false).word);
    assert value[0..] == value;
    var i := 0;
    while i < |value|
      invariant 0 <= i <= |value|
      invariant forall j :: 0 <= j < |stack| ==> IsOpen(stack[j])
      invariant Match(stack, Erase(value[i..], inQuote, escaped).word) == target
      invariant !Erase(value[i..], inQuote, escaped).inQuote == closed
    {
      var c := value[i];
      assert value[i..][1..] == value[i + 1..];
      i := i + 1;
      if escaped {
        escaped := false;
        continue;
      }
      if c == '\\' {
        escaped := true;
        continue;
      }
      if c == '"' {
        inQuote := !inQuote;
        continue;
      }
      if inQuote {
        continue;
      }
      ghost var rest := Erase(value[i..], false, false).word;
      if c == '(' || c == '[' || c == '{' {
        assert ([c] + rest)[1..] == rest;
        stack := stack + [c];
      } else if c == ')' || c == ']' || c == '}' {
        assert ([c] + rest)[1..] == rest;
        if stack == [] || stack[|stack| - 1] != pairs[c] {
          assert Match(stack, [c] + rest).None?;
          return false;
        }
        stack := stack[..|stack| - 1];
      }
    }
    ok := stack == [] && !inQuote;
  }

  // ---------- The stack accepts exactly the grammar ----------

  predicate Opens(stack: seq<char>) {
    forall i :: 0 <= i < |stack| ==> IsOpen(stack[i])
  }

  lemma {:induction false} MatchConcat(stack: seq<char>, a: seq<char>, b: seq<char>)
    ensures Match(stack, a + b) == match Match(stack, a) case None => None case Some(m) => Match(m, b)
    decreases |a|
  {
    if a == [] {
      assert a + b == b;
    } else {
      assert (a + b)[1..] == a[1..] + b;
      if IsOpen(a[0]) {
        MatchConcat(stack + [a[0]], a[1..], b);
      } else if !IsClose(a[0]) {
        MatchConcat(stack, a[1..], b);
      } else if stack != [] && IsOpen(stack[|stack| - 1]) && Closing(stack[|stack| - 1]) == a[0] {
        MatchConcat(stack[..|stack| - 1], a[1..], b);
      }
    }
  }

  lemma MatchOne(stack: seq<char>, c: char)
    requires IsOpen(c)
    ensures Match(stack, [c]) == Some(stack + [c])
    ensures Match(stack + [c], [Closing(c)]) == Some(stack)
  {
    assert [c][1..] == [] && [Closing(c)][1..] == [];
    assert (stack + [c])[..|stack|] == stack;
    assert Match(stack + [c], []) == Some(stack + [c]) && Match(stack, []) == Some(stack);
  }

  /** Every word the grammar derives leaves any stack as it was. */
  lemma {:induction false} DerivedMatches(d: Derivation, stack: seq<char>)
    requires WellFormed(d)
    ensures Match(stack, Yield(d)) == Some(stack)
    decreases d
  {
    if d.Pair? {
      var o, a, c, b := [d.open], Yield(d.inside), [Closing(d.open)], Yield(d.after);
      MatchOne(stack, d.open);
      DerivedMatches(d.inside, stack + [d.open]);
      DerivedMatches(d.after, stack);
      MatchConcat(stack, o, a);
      MatchConcat(stack, o + a, c);
      MatchConcat(stack, o + a + c, b);
    }
  }

  /** The word that closes a stack: derived words around the closing brackets, innermost first. */
  function Unwound(stack: seq<char>, ds: seq<Derivation>): seq<char>
    requires Opens(stack) && |ds| == |stack| + 1 && forall i :: 0 <= i < |ds| ==> WellFormed(ds[i])
    decreases |stack|
  {
    if stack == [] then Yield(ds[0])
    else Yield(ds[0]) + [Closing(stack[|stack| - 1])] + Unwound(stack[..|stack| - 1], ds[1..])
  }

  predicate BracketsOnly(w: seq<char>) {
    forall i :: 0 <= i < |w| ==> IsOpen(w[i]) || IsClose(w[i])
  }

  /** Whatever empties a stack decomposes into derivations. */
  lemma {:induction false} Decompose(stack: seq<char>, w: seq<char>) returns (ds: seq<Derivation>)
    requires Opens(stack) && BracketsOnly(w) && Match(stack, w) == Some([])
    ensures |ds| == |stack| + 1 && (forall i :: 0 <= i < |ds| ==> WellFormed(ds[i])) && Unwound(stack, ds) == w
    decreases |w|
  {
    if w == [] {
      ds := [Nothing];
    } else if IsOpen(w[0]) {
      var pushed := stack + [w[0]];
      var inner := Decompose(pushed, w[1..]);
      assert pushed[..|stack|] == stack;
      ds := [Pair(w[0], inner[0], inner[1])] + inner[2..];
      RegroupPair(stack, w[0], inner);
      assert w == [w[0]] + w[1..];
    } else {
      var inner := Decompose(stack[..|stack| - 1], w[1..]);
      ds := [Nothing] + inner;
      assert ds[1..] == inner;
      assert w == [w[0]] + w[1..];
    }
  }

  lemma RegroupPair(stack: seq<char>, c: char, inner: seq<Derivation>)
    requires Opens(stack) && IsOpen(c) && |inner| == |stack| + 2 && forall i :: 0 <= i < |inner| ==> WellFormed(inner[i])
    ensures Unwound(stack, [Pair(c, inner[0], inner[1])] + inner[2..]) == [c] + Unwound(stack + [c], inner)
  {
    var ds := [Pair(c, inner[0], inner[1])] + inner[2..];
    assert (stack + [c])[..|stack|] == stack;
    if stack == [] {
      assert inner[1..][0] == inner[1];
    } else {
      assert ds[1..] == inner[1..][1..];
    }
  }

  lemma {:induction false} ErasedIsBrackets(s: seq<char>, inQuote: bool, escaped: bool)
    ensures BracketsOnly(Erase(s, inQuote, escaped).word)
    decreases |s|
  {
    if s != [] {
      ErasedIsBrackets(s[1..], inQuote, false);
      ErasedIsBrackets(s[1..], inQuote, true);
      ErasedIsBrackets(s[1..], !inQuote, false);
    }
  }

  /** On words of brackets the stack empties exactly when the grammar derives the word. */
  lemma MatchIsGrammar(w: seq<char>)
    ensures BracketsOnly(w) ==> (Match([], w) == Some([]) <==> IsBalancedWord(w))
  {
    if BracketsOnly(w) && Match([], w) == Some([]) {
      var ds := Decompose([], w);
      assert WellFormed(ds[0]) && Yield(ds[0]) == w;
    }
    if IsBalancedWord(w) {
      var d :| WellFormed(d) && Yield(d) == w;
      DerivedMatches(d, []);
    }
  }

  // ---------- Concatenation ----------

  lemma {:induction false} EraseConcat(a: seq<char>, b: seq<char>, inQuote: bool, escaped: bool)
    ensures var ea := Erase(a, inQuote, escaped);
            var eb := Erase(b, ea.inQuote, ea.escaped);
            Erase(a + b, inQuote, escaped) == Erased(ea.word + eb.word, eb.inQuote, eb.escaped)
    decreases |a|
  {
    if a == [] {
      assert a + b == b;
    } else {
      assert (a + b)[1..] == a[1..] + b;
      if escaped {
        EraseConcat(a[1..], b, inQuote, false);
      } else if a[0] == '\\' {
        EraseConcat(a[1..], b, inQuote, true);
      } else if a[0] == '"' {
        EraseConcat(a[1..], b, !inQuote, false);
      } else {
        EraseConcat(a[1..], b, inQuote, false);
      }
    }
  }

  /**
   After an accepted string, a continuation is accepted exactly when it is accepted
   on its own, less the character a pending escape swallows.
   */
  lemma Concatenation(a: seq<char>, b: seq<char>)
    requires Accepted(a)
    ensures Accepted(a + b) <==> Accepted(if Erase(a, false, false).escaped && b != [] then b[1..] else b)
  {
    var ea := Erase(a, false, false);
    var rest := if ea.escaped && b != [] then b[1..] else b;
    var er := Erase(rest, false, false);
    EraseConcat(a, b, false, false);
    assert Erase(b, false, ea.escaped).word == er.word && Erase(b, false, ea.escaped).inQuote == er.inQuote;
    ErasedIsBrackets(a, false, false);
    ErasedIsBrackets(rest, false, false);
    MatchIsGrammar(ea.word);
    MatchIsGrammar(er.word);
    MatchIsGrammar(ea.word + er.word);
    MatchConcat([], ea.word, er.word);
  }

  /** So a trailing backslash breaks closure under concatenation. */
  lemma PendingEscapeBreaksClosure()
    ensures Accepted("\\") && Accepted("()") && !Accepted("\\" + "()")
  {
    assert "\\"[1..] == "" && "()"[1..] == ")" && ")"[1..] == "";
    assert WellFormed(Nothing) && Yield(Nothing) == [];
    assert Accepted("\\");
    assert Erase("()", false, false).word == "()" && !Erase("()", false, false).inQuote;
    assert Yield(Pair('(', Nothing, Nothing)) == "()";
    assert Accepted("()");
    Concatenation("\\", "()");
    assert Erase(")", false, false).word == ")";
    MatchIsGrammar(")");
    assert Match([], ")").None?;
  }

  // ---------- Brackets, quotes and escapes, in plain terms ----------

  /** The three kinds: a bracket around a balanced word, and words side by side, and nothing else before its partner. */
  lemma ThreeKinds(w: seq<char>, v: seq<char>)
    requires IsBalancedWord(w) && IsBalancedWord(v)
    ensures IsBalancedWord("(" + w + ")" + v) && IsBalancedWord("[" + w + "]" + v) && IsBalancedWord("{" + w + "}" + v)
    ensures IsBalancedWord("")
  {
    var d :| WellFormed(d) && Yield(d) == w;
    var e :| WellFormed(e) && Yield(e) == v;
    assert Yield(Pair('(', d, e)) == "(" + w + ")" + v;
    assert Yield(Pair('[', d, e)) == "[" + w + "]" + v;
    assert Yield(Pair('{', d, e)) == "{" + w + "}" + v;
    assert WellFormed(Nothing) && Yield(Nothing) == "";
  }

  /** There is no other balanced word. */
  lemma NothingElse(w: seq<char>)
    requires IsBalancedWord(w) && w != ""
    ensures exists u, v :: IsBalancedWord(u) && IsBalancedWord(v)
              && (w == "(" + u + ")" + v || w == "[" + u + "]" + v || w == "{" + u + "}" + v)
  {
    var d :| WellFormed(d) && Yield(d) == w;
    var u, v := Yield(d.inside), Yield(d.after);
    assert IsBalancedWord(u) && IsBalancedWord(v);
    assert w == [d.open] + u + [Closing(d.open)] + v;
  }

  /**
   Reading on, character by character: a backslash takes the next one with it; a quote opens or
   closes a span; inside a span nothing counts; outside only the six brackets do.
   */
  lemma ReadingOn(c: char, s: seq<char>, inQuote: bool)
    ensures Erase("", inQuote, false) == Erased("", inQuote, false)
    ensures Erase("\\" + [c] + s, inQuote, false) == Erase(s, inQuote, false)
    ensures Erase("\\", inQuote, false) == Erased("", inQuote, true)
    ensures Erase("\"" + s, inQuote, false) == Erase(s, !inQuote, false)
    ensures c != '\\' && c != '"' ==>
              Erase([c] + s, inQuote, false) ==
                if !inQuote && c in "()[]{}"
                then Erased([c] + Erase(s, inQuote, false).word, Erase(s, inQuote, false).inQuote, Erase(s, inQuote, false).escaped)
                else Erase(s, inQuote, false)
  {
    assert ("\\" + [c] + s)[1..] == [c] + s && ([c] + s)[1..] == s;
    assert ("\"" + s)[1..] == s;
    assert "\\"[1..] == "";
    assert c in "()[]{}" <==> c == '(' || c == ')' || c == '[' || c == ']' || c == '{' || c == '}';
  }

  /** The check accepts a string exactly when what is read outside quotes and escapes is balanced, and no quote is open. */
  lemma AcceptedIff(s: seq<char>)
    ensures Accepted(s) <==> IsBalancedWord(Erase(s, false, false).word) && !Erase(s, false, false).inQuote
  {
  }
}
