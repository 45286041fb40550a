/** Character machines that mask decoding: the part `structured_decoding` and `title_decoding`
    share by duck typing. A machine is a step function, a start state and one final state. */
module ResponseMachine {
  import opened Common

  predicate Over(text: string, chars: set<char>) {
    forall i | 0 <= i < |text| :: text[i] in chars
  }

  datatype Machine<!S(==)> = Machine(step: (S, char) -> Option<S>, start: S, done: S) {

    /** The state after `text`, or None once a character leaves the contract. */
    function Run(s: S, text: string): Option<S> {
      if text == [] then Some(s)
      else
        match step(s, text[0])
        case None => None
        case Some(next) => Run(next, text[1..])
    }

    /** `state_after`. */
    method StateAfter(text: string, from: S) returns (r: Option<S>)
      ensures r == Run(from, text)
    {
      var state := from;
      var i := 0;
      while i < |text|
        invariant 0 <= i <= |text|
        invariant Run(from, text) == Run(state, text[i..])
      {
        var next := step(state, text[i]);
        assert text[i..][1..] == text[i + 1..];
        if next.None? {
          return None;
        }
        state, i := next.value, i + 1;
      }
      r := Some(state);
    }

    predicate Viable(text: string) {
      Run(start, text).Some?
    }

    predicate Complete(text: string) {
      Run(start, text) == Some(done)
    }

    /** Reading a concatenation is reading one part after the other. */
    lemma {:induction false} RunConcat(s: S, a: string, b: string)
      ensures Run(s, a + b) == (if Run(s, a).None? then None else Run(Run(s, a).value, b))
    {
      if a == [] {
        assert a + b == b;
      } else {
        assert (a + b)[0] == a[0] && (a + b)[1..] == a[1..] + b;
        match step(s, a[0])
        case None =>
        case Some(next) => RunConcat(next, a[1..], b);
      }
    }

    lemma Chain(s: S, a: string, t: S, b: string)
      requires Run(s, a) == Some(t)
      ensures Run(s, a + b) == Run(t, b)
    {
      RunConcat(s, a, b);
    }

    /** Some text leads from the start to `s`. */
    ghost predicate Reachable(s: S) {
      exists text :: Run(start, text) == Some(s)
    }

    /** From `s` the contract can still be completed. */
    ghost predicate CanFinish(s: S) {
      exists text :: Run(s, text) == Some(done)
    }

    /** It can be completed with these characters alone. */
    ghost predicate CanFinishWith(s: S, chars: set<char>) {
      exists text :: Over(text, chars) && Run(s, text) == Some(done)
    }
  }

  /** Reading one character of a literal: `rest` while there is more of it, then `cont`. */
  function LiteralStep<S>(text: string, index: nat, cont: S, rest: S, c: char): Option<S> {
    if index >= |text| || c != text[index] then None
    else if index + 1 == |text| then Some(cont)
    else Some(rest)
  }

  /** RFC 8259 section 2 whitespace, the only kind the machines tolerate. */
  predicate IsBlank(c: char) {
    c == ' ' || c == '\t' || c == '\r' || c == '\n'
  }

  predicate Blank(s: string) {
    forall i | 0 <= i < |s| :: IsBlank(s[i])
  }

  /** Two texts that differ only in how much leading whitespace they have. */
  lemma {:induction false} BlankPrefix(a: string, x: string, b: string, y: string)
    requires Blank(a) && Blank(b) && a + x == b + y
    requires x != [] && !IsBlank(x[0]) && y != [] && !IsBlank(y[0])
    ensures a == b && x == y
  {
    var s := a + x;
    assert s[|a|] == x[0] && s[|b|] == y[0];
    assert forall i | 0 <= i < |a| :: s[i] == a[i];
    assert forall i | 0 <= i < |b| :: s[i] == b[i];
    assert |a| == |b|;
    assert a == s[..|a|] && b == s[..|b|] && x == s[|a|..] && y == s[|b|..];
  }
}
