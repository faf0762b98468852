/** The per-level format state machines (`discover_format_state`, `dfs_*_next`). */
module FormatStates {
  import opened Tokens
  import opened Elements

  datatype Dfs = Error | Init | InKey | ExpectingSep | InValue

  /** Tokens a message prefix may consist of. */
  predicate IsPrefixToken(t: Token) {
    match t
    case Path | Colon | Equals | Constant | Email | Word | Symbol | Id | OctalNumber | HexNumber
      | Number | White | Csi | LSquare | RSquare | LAngle | RAngle | EmptyContainer | Anchor => true
    case _ => false
  }

  function PrefixNext(s: Dfs, t: Token): Dfs {
    match s
    case Init => if IsPrefixToken(t) then s else Error
    case ExpectingSep | Error => Error
    case _ => s
  }

  function SemiNext(s: Dfs, t: Token): Dfs {
    match s
    case Init => (match t case Comma | Semi => Error case _ => InKey)
    case InKey => (match t case Colon | Equals => InValue case Semi => Error case _ => s)
    case InValue => (match t case Semi => Init case _ => s)
    case ExpectingSep | Error => Error
  }

  function CommaNext(s: Dfs, t: Token): Dfs {
    match s
    case Init => (match t case Comma => s case Semi => Error case _ => InKey)
    case InKey => (match t
                   case Colon | Equals => InValue
                   case Comma => Init
                   case Word => ExpectingSep
                   case Semi => Error
                   case _ => s)
    case ExpectingSep => (match t
                          case Colon | Equals | LParen | LCurly | LSquare | LAngle => InValue
                          case EmptyContainer => Init
                          case Comma | Semi => Error
                          case _ => s)
    case InValue => (match t case Comma => Init case Colon | Equals => Error case _ => s)
    case Error => Error
  }

  /** `discover_format_state`; the histogram array is the multiset of tokens it counts. */
  datatype FormatState = FormatState(
    prefix: Dfs,
    semi: Dfs,
    comma: Dfs,
    hist: multiset<Token>,
    format: Format)

  const NEW_STATE := FormatState(Init, Init, Init, multiset{}, DEFAULT_FORMAT)

  /** `update_for_element`. */
  function Update(s: FormatState, t: Token): FormatState {
    var prefix := PrefixNext(s.prefix, t);
    var semi := SemiNext(s.semi, t);
    var comma := CommaNext(s.comma, t);
    FormatState(
      prefix,
      if !prefix.Error? && semi.Error? then Init else semi,
      if !prefix.Error? && comma.Error? then Init else comma,
      s.hist + multiset{t},
      s.format)
  }

  /** `finalize`. */
  function Finalize(s: FormatState): Format {
    var qualifier := if s.hist[Equals] > 0 then Colon else s.format.qualifier;
    var separator := if s.hist[Equals] > 0 then Equals else s.format.separator;
    if !s.semi.Error? && s.hist[Semi] > 0 then
      FORMAT_SEMI.(qualifier := qualifier, separator := separator,
                   prefixTerminator := s.format.prefixTerminator)
    else if s.comma.Error? then
      FORMAT_PLAIN.(qualifier := qualifier, separator := separator,
                    prefixTerminator := s.format.prefixTerminator)
    else
      var base := if s.hist[Comma] > 0 then FORMAT_COMMA
                  else if s.hist[EmDash] > 0 then FORMAT_EMDASH
                  else FORMAT_PLAIN;
      var unbalanced := separator.Colon? && s.hist[Comma] > 0
                        && s.hist[Colon] != s.hist[Comma] && s.hist[Colon] as int - 1 != s.hist[Comma];
      base.(
        qualifier := qualifier,
        separator := if unbalanced then Invalid else separator,
        prefixTerminator := if unbalanced && s.hist[Colon] > 0 then Colon
                            else s.format.prefixTerminator)
  }

  /** The state after a level has seen `ts`. */
  function Run(ts: seq<Token>): FormatState {
    if ts == [] then NEW_STATE else Update(Run(ts[..|ts| - 1]), ts[|ts| - 1])
  }

  lemma RunSnoc(ts: seq<Token>, t: Token)
    ensures Run(ts + [t]) == Update(Run(ts), t)
  {
    assert (ts + [t])[..|ts|] == ts;
  }

  /** The histogram counts exactly the level's tokens, and a state never holds a format of its own. */
  lemma {:induction false} RunCounts(ts: seq<Token>)
    ensures Run(ts).hist == multiset(ts)
    ensures Run(ts).format == DEFAULT_FORMAT
  {
    if ts != [] {
      RunCounts(ts[..|ts| - 1]);
      assert ts == ts[..|ts| - 1] + [ts[|ts| - 1]];
    }
  }

  /** The prefix machine is alive exactly while every token could be part of a prefix; while it
      lives neither of the other two machines is in error. */
  lemma {:induction false} PrefixAlive(ts: seq<Token>)
    ensures !Run(ts).prefix.Error? <==> forall t | t in ts :: IsPrefixToken(t)
    ensures Run(ts).prefix.Init? || Run(ts).prefix.Error?
    ensures !Run(ts).prefix.Error? ==> !Run(ts).semi.Error? && !Run(ts).comma.Error?
  {
    if ts != [] {
      PrefixAlive(ts[..|ts| - 1]);
      assert ts == ts[..|ts| - 1] + [ts[|ts| - 1]];
    }
  }

  /** Once an error has survived a step it is there for good, whatever follows. */
  lemma {:induction false} ErrorsAbsorb(ts: seq<Token>, us: seq<Token>)
    ensures Run(ts).prefix.Error? ==> Run(ts + us).prefix.Error?
    ensures Run(ts).semi.Error? ==> Run(ts + us).semi.Error?
    ensures Run(ts).comma.Error? ==> Run(ts + us).comma.Error?
  {
    if us == [] {
      assert ts + us == ts;
    } else {
      var last := us[|us| - 1];
      ErrorsAbsorb(ts, us[..|us| - 1]);
      PrefixAlive(ts);
      assert ts + us == ts + us[..|us| - 1] + [last];
      RunSnoc(ts + us[..|us| - 1], last);
      PrefixAlive(ts + us[..|us| - 1]);
    }
  }

  /** Which of the four formats a level gets, decided by its own tokens alone. */
  lemma FinalizeDecides(ts: seq<Token>)
    ensures UsableFormat(Finalize(Run(ts)))
    ensures Finalize(Run(ts)).name.SemiFormat? <==> Semi in ts && !Run(ts).semi.Error?
    ensures Finalize(Run(ts)).name.CommaFormat? <==>
              !Finalize(Run(ts)).name.SemiFormat? && Comma in ts && !Run(ts).comma.Error?
    ensures Finalize(Run(ts)).name.EmDashFormat? <==>
              && !Finalize(Run(ts)).name.SemiFormat? && Comma !in ts && EmDash in ts
              && !Run(ts).comma.Error?
    ensures Finalize(Run(ts)).separator.Equals? <==> Equals in ts
    ensures Finalize(Run(ts)).separator.Invalid? ==> Finalize(Run(ts)).name.CommaFormat?
  {
    RunCounts(ts);
    assert forall t :: multiset(ts)[t] > 0 <==> t in ts;
  }
}
