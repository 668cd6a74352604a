/** The bot's registry of message parsers, looked up by function name, and
    the default parser that splits a message into question, answers and
    examples without any normalisation besides stripping each answer. */
module Parsers {
  import opened Runtime
  import opened Text
  import opened PostParsing

  /** A registry of parser functions keyed by their name. */
  class Parsers {
    var functions: map<string, Callable>

    /** Every function is registered under its own name. */
    ghost predicate Valid()
      reads this
    {
      forall name :: name in functions ==> functions[name].name == name
    }

    constructor ()
      ensures Valid() && functions == map[]
    {
      functions := map[];
    }

    /** Registers `f` under its own name, replacing an earlier function of
        that name. The registering call returns nothing, so a name decorated
        with it is rebound to `None`. */
    method Register(f: Callable)
      requires Valid()
      modifies this
      ensures Valid()
      ensures functions == old(functions)[f.name := f]
      ensures Run(f.name) == Returned(f)
      ensures Len() == old(Len()) + (if f.name in old(functions) then 0 else 1)
    {
      functions := functions[f.name := f];
    }

    /** The parser registered under `parser`; `KeyError` if there is none. */
    function Run(parser: string): (r: Outcome<Callable>)
      reads this
      ensures r.Returned? <==> parser in functions
      ensures r.Returned? ==> r.value == functions[parser]
      ensures Valid() && r.Returned? ==> r.value.name == parser
      ensures r.Raised? ==> r.error == KeyError
    {
      if parser in functions then Returned(functions[parser]) else Raised(KeyError)
    }

    /** The number of registered parsers; none at all exactly when no name
        runs. */
    function Len(): (n: nat)
      reads this
      ensures n == |functions|
      ensures n == 0 <==> forall parser :: Run(parser).Raised?
    {
      assert (forall parser :: Run(parser).Raised?) ==> functions == map[] by {
        if forall parser :: Run(parser).Raised? {
          forall parser ensures parser !in functions {
            assert Run(parser).Raised?;
          }
          assert functions.Keys == {};
        }
      }
      |functions|
    }
  }

  /** The registry as the module sets it up: empty, then `parser_default`
      registered, so that exactly that one parser can be run. */
  method InitParsers(parserDefault: Callable) returns (parsers: Parsers)
    requires parserDefault.name == "parser_default"
    ensures parsers.Valid() && parsers.Len() == 1 && parsers.Run("parser_default") == Returned(parserDefault)
  {
    parsers := new Parsers();
    parsers.Register(parserDefault);
  }

  /** The default parser: the first line as the question, the second line
      split on "/" with each piece stripped as the answers, the remaining
      lines as the examples. A message without a line break raises
      `IndexError`. */
  function ParserDefault(message: string): (r: Outcome<Post>)
    ensures r.Raised? <==> '\n' !in message
    ensures r.Raised? ==> r.error == IndexError
    ensures r.Returned? ==> Count(message, '\n') >= 1
    ensures r.Returned? ==> |r.value.answers| == Count(Split(message, '\n')[1], '/') + 1
    ensures r.Returned? ==> r.value.answers == StripAll(Split(Split(message, '\n')[1], '/'))
    ensures r.Returned? ==> |r.value.examples| == Count(message, '\n') - 1
    ensures r.Returned? ==> Join([r.value.question, Split(message, '\n')[1]] + r.value.examples, '\n') == message
  {
    var lines := Split(message, '\n');
    CountZero(message, '\n');
    if |lines| < 2 then Raised(IndexError)
    else
      JoinSplit(message, '\n');
      assert [lines[0], lines[1]] + lines[2..] == lines;
      Returned(Post(lines[0], StripAll(Split(lines[1], '/')), lines[2..]))
  }

  /** The default parser and the poller's parser accept the same messages,
      and the poller's record is the default one normalised: question
      stripped and lower-cased, each answer lower-cased, examples stripped. */
  lemma ParsersAgree(message: string)
    ensures ParsePost(message).Some? <==> ParserDefault(message).Returned?
    ensures ParsePost(message).Some? ==>
      var p, d := ParsePost(message).value, ParserDefault(message).value;
      && p.question == Lower(Strip(d.question))
      && p.examples == StripAll(d.examples)
      && |p.answers| == |d.answers|
      && forall i :: 0 <= i < |p.answers| ==> p.answers[i] == Lower(d.answers[i])
  {
    var raw := Split(message, '\n');
    if |raw| >= 2 {
      SplitStrip(raw[1], '/');
      var lines := StripAll(raw);
      assert lines[2..] == StripAll(raw[2..]);
      StripAllIdempotent(raw[2..]);
    }
  }
}
