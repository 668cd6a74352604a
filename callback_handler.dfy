/** The routing of inline-keyboard callbacks: the callback data is
    "<function id>,<arg>,<arg>,...", the id selects a handler registered
    under that number and the remaining fields are passed to it as strings. */
module CallbackHandler {
  import opened Runtime
  import opened Text

  predicate IsDigit(c: char)
  {
    '0' <= c <= '9'
  }

  predicate AllDigits(s: string)
  {
    forall i :: 0 <= i < |s| ==> IsDigit(s[i])
  }

  /** The value of a string of decimal digits. */
  function DigitsValue(s: string): nat
    requires AllDigits(s)
  {
    if s == [] then 0 else DigitsValue(s[..|s| - 1]) * 10 + (s[|s| - 1] as int - '0' as int)
  }

  /** `int(s)` on ASCII decimal text: surrounding whitespace, an optional
      sign and at least one digit; anything else raises `ValueError`. */
  function ParseInt(s: string): (r: Outcome<int>)
    ensures r.Raised? ==> r.error == ValueError
    ensures r.Returned? ==> Strip(s) != [] && IsDigit(Strip(s)[|Strip(s)| - 1])
    ensures r.Returned? ==> IsDigit(Strip(s)[0]) || Strip(s)[0] == '-' || Strip(s)[0] == '+'
    ensures r.Returned? ==> forall i :: 0 < i < |Strip(s)| ==> IsDigit(Strip(s)[i])
    ensures Strip(s) != [] && AllDigits(Strip(s)) ==> r == Returned(DigitsValue(Strip(s)))
    ensures |Strip(s)| >= 2 && Strip(s)[0] == '+' && AllDigits(Strip(s)[1..]) ==> r == Returned(DigitsValue(Strip(s)[1..]))
    ensures |Strip(s)| >= 2 && Strip(s)[0] == '-' && AllDigits(Strip(s)[1..]) ==> r == Returned(-(DigitsValue(Strip(s)[1..]) as int))
  {
    var t := Strip(s);
    if t == [] then Raised(ValueError)
    else
      var signed := t[0] == '-' || t[0] == '+';
      var digits := if signed then t[1..] else t;
      if digits == [] || !AllDigits(digits) then Raised(ValueError)
      else
        var value: int := DigitsValue(digits);
        Returned(if t[0] == '-' then -value else value)
  }

  /** The decimal digits of `n`, without leading zeros. */
  function Digits(n: nat): (s: string)
    ensures s != [] && AllDigits(s)
    ensures DigitsValue(s) == n
  {
    if n < 10 then [('0' as int + n) as char]
    else
      var init := Digits(n / 10);
      var s := init + [('0' as int + n % 10) as char];
      assert s[..|s| - 1] == init;
      s
  }

  /** `str(n)`. */
  function FormatInt(n: int): string
  {
    if n < 0 then "-" + Digits(-n) else Digits(n)
  }

  /** Reading back a formatted number gives the number. */
  lemma ParseFormatInt(n: int)
    ensures ParseInt(FormatInt(n)) == Returned(n)
  {
    var s := FormatInt(n);
    StripUnchanged(s);
    if n < 0 {
      assert s[1..] == Digits(-n);
    }
  }

  /** The callback data a keyboard button carries for handler `id` and
      arguments `args`. */
  function CallbackData(id: int, args: seq<string>): string
  {
    Join([FormatInt(id)] + args, ',')
  }

  /** A registry of callback handlers keyed by number. */
  class CallbackRouting {
    var functions: map<int, Callable>

    constructor ()
      ensures functions == map[]
    {
      functions := map[];
    }

    /** Registers `f` under `id`, replacing an earlier handler with that id.
        The decorator returns nothing, so the decorated name is rebound to
        `None`. */
    method Register(id: int, f: Callable)
      modifies this
      ensures functions == old(functions)[id := f]
      ensures Route(id) == Returned(f)
      ensures Len() == old(Len()) + (if id in old(functions) then 0 else 1)
    {
      functions := functions[id := f];
    }

    /** The handler registered under `id`; `KeyError` if there is none. */
    function Route(id: int): (r: Outcome<Callable>)
      reads this
      ensures r.Returned? <==> id in functions
      ensures r.Returned? ==> r.value == functions[id]
      ensures r.Raised? ==> r.error == KeyError
    {
      if id in functions then Returned(functions[id]) else Raised(KeyError)
    }

    /** The number of registered handlers; none at all exactly when no id
        routes. */
    function Len(): (n: nat)
      reads this
      ensures n == |functions|
      ensures n == 0 <==> forall id :: Route(id).Raised?
    {
      assert (forall id :: Route(id).Raised?) ==> functions == map[] by {
        if forall id :: Route(id).Raised? {
          forall id ensures id !in functions {
            assert Route(id).Raised?;
          }
          assert functions.Keys == {};
        }
      }
      |functions|
    }

    /** The handler a callback invokes and the arguments it passes: the data
        is split on ",", the first field read as the handler id (`ValueError`
        if it is not a number, `KeyError` if no handler has it), and the
        other fields are the arguments. */
    function Handle(data: string): (r: Outcome<(Callable, seq<string>)>)
      reads this
      ensures r.Returned? ==> |r.value.1| == Count(data, ',')
      ensures r.Returned? ==> forall i :: 0 <= i < |r.value.1| ==> ',' !in r.value.1[i]
      ensures r == Raised(ValueError) <==> ParseInt(Split(data, ',')[0]).Raised?
      ensures r == Raised(KeyError) <==> ParseInt(Split(data, ',')[0]).Returned? && ParseInt(Split(data, ',')[0]).value !in functions
      ensures r.Returned? ==> (
        && ParseInt(Split(data, ',')[0]).Returned?
        && r.value.0 == functions[ParseInt(Split(data, ',')[0]).value]
        && Join([Split(data, ',')[0]] + r.value.1, ',') == data)
    {
      var fields := Split(data, ',');
      JoinSplit(data, ',');
      assert [fields[0]] + fields[1..] == fields;
      match ParseInt(fields[0])
      case Raised(e) => Raised(e)
      case Returned(id) =>
        match Route(id)
        case Raised(e) => Raised(e)
        case Returned(f) => Returned((f, fields[1..]))
    }

    /** Callback data built from a registered id and comma-free arguments
        routes to that handler with exactly those arguments. */
    lemma HandleCallbackData(id: int, args: seq<string>)
      requires id in functions
      requires forall i :: 0 <= i < |args| ==> ',' !in args[i]
      ensures Handle(CallbackData(id, args)) == Returned((functions[id], args))
    {
      var parts := [FormatInt(id)] + args;
      forall i | 0 <= i < |parts| ensures ',' !in parts[i] {
        if i == 0 {
          assert ',' !in FormatInt(id) by {
            if id < 0 {
              assert FormatInt(id) == "-" + Digits(-id);
              assert forall k :: 0 <= k < |FormatInt(id)| ==> FormatInt(id)[k] == '-' || IsDigit(FormatInt(id)[k]);
            } else {
              assert AllDigits(FormatInt(id));
            }
          }
        } else {
          assert parts[i] == args[i - 1];
        }
      }
      SplitJoin(parts, ',');
      ParseFormatInt(id);
      assert parts[1..] == args;
    }
  }
}
