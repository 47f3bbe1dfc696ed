/**
  The optional part of an external-tool command line. A builder declares its
  optional arguments in the order it appends them; each declaration says
  whether the argument is appended, its flag, and the value it carries, if any.
  The rendered text, the flags and the words the shell sees are all functions
  of that declaration list.
 */
module CommandLine {
  import opened Wrappers
  import opened Text

  /** A flag such as `-D`: a single shell word. */
  type Flag = w: string | IsWord(w) witness "-"

  /** One optional argument: appended or not, its flag, and its value if it takes one. */
  datatype Arg = Arg(present: bool, flag: Flag, value: Option<string>)

  /** A builder's optional arguments, in the order it appends them. */
  datatype Args = Nil | Cons(head: Arg, tail: Args)

  /** A flag on its own (`' -r'`). */
  function Switch(present: bool, flag: Flag): Arg {
    Arg(present, flag, None)
  }

  /** A flag followed by a value (`' -D ' + D`). */
  function Valued(present: bool, flag: Flag, value: string): Arg {
    Arg(present, flag, Some(value))
  }

  /** The text appended for an argument: a space and its flag, then a space and its value. */
  function ArgText(a: Arg): string {
    if a.value.Some? then " " + a.flag + " " + a.value.value else " " + a.flag
  }

  /** The words an appended argument is meant to contribute: its flag, then its value's words. */
  function ArgWords(a: Arg): seq<string> {
    if a.value.Some? then [a.flag] + Split(a.value.value) else [a.flag]
  }

  /** The command-line text of the arguments: the present ones' texts, in order. */
  function Render(args: Args): string {
    match args
    case Nil => ""
    case Cons(a, rest) => (if a.present then ArgText(a) else "") + Render(rest)
  }

  /** The flags that appear: the present arguments' flags, in order. */
  function Flags(args: Args): seq<string> {
    match args
    case Nil => []
    case Cons(a, rest) => (if a.present then [a.flag] else []) + Flags(rest)
  }

  /** The words the present arguments contribute, in order. */
  function Words(args: Args): seq<string> {
    match args
    case Nil => []
    case Cons(a, rest) => (if a.present then ArgWords(a) else []) + Words(rest)
  }

  /** An argument's text splits into its flag and its value's words. */
  lemma SplitArg(a: Arg)
    ensures Split(ArgText(a)) == ArgWords(a)
  {
    if a.value.Some? {
      var v := a.value.value;
      assert ArgText(a) == " " + (a.flag + (" " + v));
      SplitLeadingSpace(a.flag + (" " + v));
      SplitWordThen(a.flag, " " + v);
      SplitLeadingSpace(v);
    } else {
      SplitLeadingSpace(a.flag);
      SplitWord(a.flag);
    }
  }

  /** Rendered arguments are empty or start with whitespace, so they never run into the text before them. */
  lemma {:induction false} RenderSpaced(args: Args)
    ensures Render(args) == [] || IsSpace(Render(args)[0])
  {
    match args
    case Nil =>
    case Cons(a, rest) =>
      RenderSpaced(rest);
  }

  /** Splitting the rendered arguments gives each present argument's words in turn. */
  lemma {:induction false} SplitRender(args: Args)
    ensures Split(Render(args)) == Words(args)
  {
    match args
    case Nil =>
    case Cons(a, rest) =>
      var t := if a.present then ArgText(a) else "";
      RenderSpaced(rest);
      SplitAppend(t, Render(rest));
      SplitRender(rest);
      if a.present {
        SplitArg(a);
      }
  }

  /** Every flag that appears is one of the words the shell sees. */
  lemma {:induction false} FlagsAreWords(args: Args)
    ensures forall x | x in Flags(args) :: x in Words(args)
  {
    match args
    case Nil =>
    case Cons(a, rest) =>
      FlagsAreWords(rest);
  }
}
