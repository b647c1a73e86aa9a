/** Option descriptors, how a token is compared against them, and the texts of
    the errors the parser logs. */
module Registry {
  import opened Wrappers
  import opened Cells

  /** What a matched option writes: a fixed boolean into a shared flag, or the
      following token into a shared string buffer. */
  datatype Binding =
    | Flag(flag: BoolRef, setTo: bool)
    | Value(buffer: StringBuilder)

  /** One registered option. Its names and binding never change once it is in
      the registry. */
  datatype Opt = Opt(shortName: Option<char>, longName: Option<string>, binding: Binding)

  /** A nullable `char` rendered as text: a null one renders as nothing. */
  function ShortText(c: Option<char>): string
  {
    match c
    case None => ""
    case Some(ch) => [ch]
  }

  /** A nullable string rendered as text: a null one renders as nothing. */
  function LongText(s: Option<string>): string
  {
    match s
    case None => ""
    case Some(t) => t
  }

  /** The token the short name is spelled as: `-` followed by the name. */
  function ShortForm(o: Opt): string
  {
    "-" + ShortText(o.shortName)
  }

  /** The token the long name is spelled as: `--` followed by the name. */
  function LongForm(o: Opt): string
  {
    "--" + LongText(o.longName)
  }

  /** A token selects an option when it equals either of its spellings. */
  predicate Matches(o: Opt, token: string)
  {
    token == ShortForm(o) || token == LongForm(o)
  }

  /** A null short name spells `-` and a null long name spells `--`, so an
      option whose names are both null matches those two tokens and nothing
      else. */
  lemma NullNamesMatchOnlyDashes(o: Opt, token: string)
    requires o.shortName.None? && o.longName.None?
    ensures Matches(o, token) <==> token == "-" || token == "--"
  {
  }

  /** Text of the error logged when an on-option is registered without a
      target. */
  function NullOnTargetError(shortName: Option<char>, longName: Option<string>): string
  {
    "Variable is null for boolref " + ShortText(shortName) + "/" + LongText(longName) + "."
  }

  /** Text of the error logged when an off-option or a value option is
      registered without a target. */
  function NullTargetError(shortName: Option<char>, longName: Option<string>): string
  {
    "Variable is null for " + ShortText(shortName) + "/" + LongText(longName)
  }

  /** Text of the error logged when a positional argument has no list to go
      to. */
  function NoListError(argument: string): string
  {
    "Adding argument " + argument + ": No argument list to add to."
  }

  /** Text of the error logged when a value option is the last token. */
  function MissingValueError(token: string): string
  {
    token + " requires an argument, but there are no more arguments to parse."
  }

  /** Text of the error logged for an option-shaped token no option matches. */
  function UnknownError(token: string): string
  {
    "Unknown argument: " + token
  }
}
