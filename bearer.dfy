/**
 * The Authorization header test that middlewares/authenticate_user.go and
 * middlewares/authenticate_admin.go both perform before decoding a token.
 */
module Bearer {
  import opened Wrappers
  import opened Strings

  const NoAuthorization := AppError(401, "No authorization provided.")
  const InvalidToken := AppError(401, "Invalid token.")

  /**
   * The token of an `Authorization` header: the header is split on single
   * spaces, the first part must be exactly "Bearer", and the second part is
   * the token; further parts are ignored.
   */
  function ParseBearer(header: string): (r: Result<string>)
    ensures header == "" ==> r == Err(NoAuthorization)
    ensures header != "" ==> (r.Ok? <==> |Split(header, ' ')| >= 2 && Split(header, ' ')[0] == "Bearer")
    ensures header != "" && r.Err? ==> r.error == InvalidToken
    ensures r.Ok? ==> ' ' !in r.value && Join(Split(header, ' ')[..2], " ") == "Bearer " + r.value
  {
    if header == "" then Err(NoAuthorization)
    else
      var parts := Split(header, ' ');
      if |parts| < 2 || parts[0] != "Bearer" then Err(InvalidToken)
      else
        SplitPieces(header, ' ');
        assert parts[..2] == [parts[0], parts[1]];
        assert parts[..2][1..] == [parts[1]];
        Ok(parts[1])
  }

  /** "Bearer " and a token without spaces gives the token back, whatever follows it after another space. */
  lemma TokenAfterBearer(token: string, rest: Option<string>)
    requires ' ' !in token
    ensures var header := "Bearer " + token + (if rest.Some? then " " + rest.value else "");
      ParseBearer(header) == Ok(token)
  {
    var header := "Bearer " + token + (if rest.Some? then " " + rest.value else "");
    var tail := token + (if rest.Some? then " " + rest.value else "");
    assert header == "Bearer" + [' '] + tail;
    SplitAfterPiece("Bearer", ' ', tail);
    if rest.Some? {
      assert tail == token + [' '] + rest.value;
      SplitAfterPiece(token, ' ', rest.value);
    } else {
      assert tail == token;
      SplitWithoutSeparator(token, ' ');
    }
  }

  /** The scheme is compared exactly: another spelling, such as "bearer", is refused. */
  lemma SchemeIsExact(scheme: string, token: string)
    requires ' ' !in scheme && scheme != "Bearer"
    ensures ParseBearer(scheme + " " + token) == Err(InvalidToken)
  {
    SplitAfterPiece(scheme, ' ', token);
    assert scheme + " " + token == scheme + [' '] + token;
  }

  /** A header without a space is refused. */
  lemma NoSpaceRefused(header: string)
    requires header != "" && ' ' !in header
    ensures ParseBearer(header) == Err(InvalidToken)
  {
    SplitWithoutSeparator(header, ' ');
  }
}
