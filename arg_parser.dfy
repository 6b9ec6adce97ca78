/** InputParser: the command-line arguments after the program name, and two
    queries over them: whether a flag is present, and the token that follows
    its first occurrence. */
module ArgParser {

  /** The two ways getCmdOption throws std::invalid_argument. */
  datatype ErrorKind = NotFound | EmptyArgument

  datatype Lookup = Found(value: string) | Failed(kind: ErrorKind, message: string)

  /** The message the exception carries. */
  function Message(kind: ErrorKind, option: string): string
  {
    match kind
    case NotFound => "Error: argument '" + option + "' not found. "
    case EmptyArgument => "Error: empty argument '" + option + "'"
  }

  /** std::find: the index of the first token equal to `option`, or the
      number of tokens (the end iterator) when there is none. */
  function Find(tokens: seq<string>, option: string): (k: nat)
    ensures k <= |tokens|
    ensures k < |tokens| ==> tokens[k] == option
    ensures forall j :: 0 <= j < k ==> tokens[j] != option
  {
    if tokens == [] then 0
    else if tokens[0] == option then 0
    else 1 + Find(tokens[1..], option)
  }

  /** `i` is where `option` occurs first among `tokens`. */
  predicate FirstOccurrence(tokens: seq<string>, option: string, i: int)
  {
    0 <= i < |tokens| && tokens[i] == option && option !in tokens[..i]
  }

  class InputParser {
    var tokens: seq<string>

    /** Copies argv[1], ..., argv[argc - 1]; argc is the length of `argv`. */
    constructor (argv: seq<string>)
      ensures tokens == if argv == [] then [] else argv[1..]
    {
      tokens := [];
      new;
      var i := 1;
      while i < |argv|
        invariant |argv| > 0 ==> 1 <= i <= |argv| && tokens == argv[1..i]
        invariant |argv| == 0 ==> tokens == []
      {
        tokens := tokens + [argv[i]];
        i := i + 1;
      }
    }

    /** The flag occurs somewhere among the tokens. */
    function CmdOptionExists(option: string): (r: bool)
      reads this
      ensures r <==> option in tokens
    {
      Find(tokens, option) != |tokens|
    }

    /** The token after the first occurrence of `option`, whatever it is;
        NotFound when `option` is absent, EmptyArgument when its first
        occurrence is the last token. */
    function GetCmdOption(option: string): (r: Lookup)
      reads this
      ensures r.Failed? ==> r.message == Message(r.kind, option)
      ensures r == Failed(NotFound, Message(NotFound, option)) <==> option !in tokens
      ensures forall i {:trigger FirstOccurrence(tokens, option, i)} :: FirstOccurrence(tokens, option, i) ==>
                r == if i + 1 < |tokens| then Found(tokens[i + 1])
                     else Failed(EmptyArgument, Message(EmptyArgument, option))
    {
      if !CmdOptionExists(option) then
        Failed(NotFound, Message(NotFound, option))
      else
        var k := Find(tokens, option);
        assert FirstOccurrence(tokens, option, k);
        if k + 1 < |tokens| then Found(tokens[k + 1])
        else Failed(EmptyArgument, Message(EmptyArgument, option))
    }
  }

  /** Only the tokens up to the first occurrence and the one after it matter:
      later tokens, including later occurrences of the flag, do not change
      the result. */
  lemma OnlyPrefixMatters(p: InputParser, q: InputParser, option: string, i: int)
    requires FirstOccurrence(p.tokens, option, i)
    requires i + 2 <= |p.tokens| && q.tokens == p.tokens[..i + 2]
    ensures q.GetCmdOption(option) == p.GetCmdOption(option) == Found(p.tokens[i + 1])
  {
    assert q.tokens[..i] == p.tokens[..i];
    assert FirstOccurrence(q.tokens, option, i);
  }

  /** The value found for a flag can itself be a flag: over `-a -b`, `-a`
      yields `-b`, while `-b`, the last token, has no value. */
  lemma FollowerMayBeAFlag(p: InputParser)
    requires p.tokens == ["-a", "-b"]
    ensures p.GetCmdOption("-a") == Found("-b")
    ensures p.GetCmdOption("-b").Failed? && p.GetCmdOption("-b").kind == EmptyArgument
    ensures p.GetCmdOption("-c").Failed? && p.GetCmdOption("-c").kind == NotFound
  {
    assert FirstOccurrence(p.tokens, "-a", 0);
    assert p.tokens[..1] == ["-a"];
    assert FirstOccurrence(p.tokens, "-b", 1);
    assert "-c" != "-a" && "-c" != "-b";
  }
}
