// The submit handler of the greeting form: the typed name is trimmed, a
// non-empty name is greeted and the greeting element asked for focus,
// otherwise a prompt is shown.

module GreetForm {
  import opened Strings

  const Prompt: string := "Please enter a name."
  const Salutation: string := "Hello, "

  /** What the handler leaves behind: the greeting element's text, and
      whether it called focus() on that element. */
  datatype Greeting = Greeting(text: string, focus: bool)

  function Greet(raw: string): (g: Greeting)
    ensures g.focus <==> !AllWhitespace(raw)
    ensures g.focus ==> g.text == Salutation + Trim(raw) + "!"
    ensures !g.focus ==> g.text == Prompt
  {
    var name := Trim(raw);
    if name != [] then Greeting(Salutation + name + "!", true) else Greeting(Prompt, false)
  }

  /** The prompt is shown exactly when the name is blank: no greeting, for
      any name, reads like the prompt. */
  lemma PromptExactlyWhenBlank(raw: string)
    ensures Greet(raw).text == Prompt <==> AllWhitespace(raw)
  {
    var g := Greet(raw);
    if g.focus {
      assert g.text[0] == 'H' != Prompt[0];
    }
  }

  /** The greeted name can be read back from the greeting: it is the trimmed
      input, with no whitespace at either end and at least one character. */
  lemma GreetedNameRoundTrip(raw: string)
    requires !AllWhitespace(raw)
    ensures var text := Greet(raw).text;
      |text| > |Salutation| + 1 &&
      text[..|Salutation|] == Salutation && text[|text| - 1] == '!' &&
      text[|Salutation|..|text| - 1] == Trim(raw) && Trimmed(text[|Salutation|..|text| - 1])
  {
    Unwrap(Salutation, Trim(raw), "!");
  }

  lemma Unwrap(a: string, b: string, c: string)
    ensures (a + b + c)[..|a|] == a
    ensures (a + b + c)[|a|..|a| + |b|] == b
    ensures (a + b + c)[|a| + |b|..] == c
  {
    var w := a + b + c;
    assert w[..|a|] == a;
    assert w[|a|..|a| + |b|] == b;
    assert w[|a| + |b|..] == c;
  }

  /** Surrounding whitespace in the input never shows in the outcome. */
  lemma {:induction false} GreetIgnoresSurroundingWhitespace(raw: string)
    ensures Greet(Trim(raw)) == Greet(raw)
  {
    TrimIdempotent(raw);
  }
}
