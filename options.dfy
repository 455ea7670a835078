/**
 * The option checks the script makes after parsing its command line and
 * before calling `main`: exactly one of `-u`/`-U` and exactly one of
 * `-p`/`-P` must be given, where "given" is Python truthiness, so an empty
 * string counts as absent.
 */
module Options {
  import opened Wrappers
  import opened WordList

  /** The parsed command line; an option left off is `None`. */
  datatype Args = Args(
    target: string,
    port: int,
    username: Option<string>,
    userlist: Option<string>,
    password: Option<string>,
    passlist: Option<string>,
    forcequit: bool,
    verbose: nat,
    quiet: bool,
    output: Option<string>)

  /** Why a command line is rejected, in the order the checks are made. */
  datatype ConfigError = UserConflict | PassConflict | UserMissing | PassMissing

  /**
   * The text each check assigns to `error_message`. It is never shown: the
   * name `ArgumentTypeError` is not imported, so the `raise` fails with a
   * `NameError` before the message reaches the user.
   */
  function Message(e: ConfigError): string
  {
    match e
    case UserConflict => "Only one of -u or -U should be specified"
    case PassConflict => "Only one of -p or -P should be specified"
    case UserMissing => "Either -u or -U should be specified"
    case PassMissing => "Either -p or -P should be specified"
  }

  /**
   * The four checks, made in order; the first that fails aborts the run.
   * A run is accepted exactly when each pair has exactly one member given,
   * and each rejection names a pair that has both or neither.
   */
  function Validate(a: Args): (r: Option<ConfigError>)
    ensures r == None <==>
      (Given(a.username) != Given(a.userlist)) && (Given(a.password) != Given(a.passlist))
    ensures r == Some(UserConflict) <==> Given(a.username) && Given(a.userlist)
    ensures r == Some(PassConflict) <==>
      !(Given(a.username) && Given(a.userlist)) && Given(a.password) && Given(a.passlist)
    ensures r == Some(UserMissing) <==>
      !Given(a.username) && !Given(a.userlist) && !(Given(a.password) && Given(a.passlist))
    ensures r == Some(PassMissing) ==> !Given(a.password) && !Given(a.passlist)
  {
    if Given(a.username) && Given(a.userlist) then Some(UserConflict)
    else if Given(a.password) && Given(a.passlist) then Some(PassConflict)
    else if !(Given(a.username) || Given(a.userlist)) then Some(UserMissing)
    else if !(Given(a.password) || Given(a.passlist)) then Some(PassMissing)
    else None
  }

  /**
   * Accepting a command line is what binds both candidate lists: with a
   * validated command line, neither side is left without a source.
   */
  lemma ValidatedBindsBoth(a: Args, files: map<string, seq<string>>)
    requires Validate(a) == None
    ensures Candidates(a.username, a.userlist, files) != Err(Unbound)
    ensures Candidates(a.password, a.passlist, files) != Err(Unbound)
  {
  }

  // An empty `-u` value does not count as given.
  lemma EmptyUsernameIsAbsent(p: string)
    requires p != ""
    ensures Validate(Args("h", 21, Some(""), None, Some(p), None, false, 0, false, None)) == Some(UserMissing)
  {
  }
}
