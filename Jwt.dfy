/** A transparent stand-in for the two foreign libraries the auth code calls:
    jsonwebtoken (sign / verify) and bcryptjs (hash / compare).

    A signed token is the text `<key>.<claim>.<claim>...<issued-at>`: the tag
    of the secret that signed it ("A" for the access secret, "R" for the
    refresh secret), the claims with '%', '.' and ' ' escaped, and the issue
    time in decimal. There is no cryptography: what the model keeps is that
    verifying a signed token gives back its claims, that the two secrets do
    not accept each other's tokens, and that a token never contains a space
    (so it survives the `Bearer <token>` header). Expiry is not modelled. */
module Jwt {
  import opened Records

  /** The userData claims of an access token. */
  datatype UserData = UserData(firstName: string, lastName: string, id: Id, profilePicture: string)

  /** A verified access token: its userData and its issue time. */
  datatype AccessClaims = AccessClaims(user: UserData, iat: nat)

  /** A verified refresh token: the user id it names and its issue time. */
  datatype RefreshClaims = RefreshClaims(id: Id, iat: nat)

  // ---------------------------------------------------------------------------
  // String.prototype.split on one character, and its inverse

  /** Position of the first `c` in `s`. */
  function IndexOf(s: string, c: char): (i: nat)
    requires c in s
    ensures i < |s| && s[i] == c && c !in s[..i]
  {
    if s[0] == c then 0
    else
      var j := IndexOf(s[1..], c);
      assert s[..1 + j] == [s[0]] + s[1..][..j];
      1 + j
  }

  /** `s.split(sep)`: the pieces of `s` between occurrences of `sep`, in order;
      the first piece is the longest prefix of `s` free of `sep`. */
  function Split(s: string, sep: char): (parts: seq<string>)
    ensures |parts| >= 1
    ensures sep in s <==> |parts| >= 2
    ensures sep !in parts[0] && |parts[0]| <= |s| && s[..|parts[0]|] == parts[0]
    ensures |parts[0]| < |s| ==> s[|parts[0]|] == sep
    decreases |s|
  {
    if sep in s then
      var i := IndexOf(s, sep);
      [s[..i]] + Split(s[i + 1..], sep)
    else
      [s]
  }

  /** `parts.join(sep)`. */
  function Join(parts: seq<string>, sep: char): (r: string)
    requires |parts| >= 1
  {
    if |parts| == 1 then parts[0] else parts[0] + [sep] + Join(parts[1..], sep)
  }

  /** Joining pieces free of a character never introduces another character. */
  lemma {:induction false} JoinAvoids(parts: seq<string>, sep: char, c: char)
    requires |parts| >= 1 && c != sep
    requires forall k :: 0 <= k < |parts| ==> c !in parts[k]
    ensures c !in Join(parts, sep)
  {
    if |parts| > 1 {
      JoinAvoids(parts[1..], sep, c);
    }
  }

  /** Splitting undoes joining when no piece contains the separator. */
  lemma {:induction false} SplitJoin(parts: seq<string>, sep: char)
    requires |parts| >= 1
    requires forall k :: 0 <= k < |parts| ==> sep !in parts[k]
    ensures Split(Join(parts, sep), sep) == parts
  {
    if |parts| > 1 {
      var head := parts[0];
      var rest := Join(parts[1..], sep);
      var s := Join(parts, sep);
      assert s == head + [sep] + rest;
      assert s[|head|] == sep;
      assert s[..|head|] == head;
      var i := IndexOf(s, sep);
      assert s[..i] == head;
      assert s[i + 1..] == rest;
      SplitJoin(parts[1..], sep);
    }
  }

  // ---------------------------------------------------------------------------
  // Escaping of claim text

  function EscapeChar(c: char): (r: string) {
    if c == '%' then "%p" else if c == '.' then "%d" else if c == ' ' then "%s" else [c]
  }

  /** Claim text with '%', '.' and ' ' replaced by two-character escapes. */
  function Escape(s: string): (e: string)
    ensures '.' !in e && ' ' !in e
  {
    if s == [] then [] else EscapeChar(s[0]) + Escape(s[1..])
  }

  /** The inverse of `Escape`; `None` on a dangling or unknown escape. */
  function Unescape(e: string): (r: Option<string>)
    decreases |e|
  {
    if e == [] then Some([])
    else if e[0] == '%' then
      if |e| < 2 then None
      else
        var c := if e[1] == 'p' then Some('%') else if e[1] == 'd' then Some('.') else if e[1] == 's' then Some(' ') else None;
        match (c, Unescape(e[2..]))
        case (Some(x), Some(r)) => Some([x] + r)
        case _ => None
    else
      match Unescape(e[1..])
      case Some(r) => Some([e[0]] + r)
      case None => None
  }

  lemma {:induction false} UnescapeEscape(s: string)
    ensures Unescape(Escape(s)) == Some(s)
  {
    if s != [] {
      var e := Escape(s);
      var tail := Escape(s[1..]);
      assert e == EscapeChar(s[0]) + tail;
      UnescapeEscape(s[1..]);
      if |EscapeChar(s[0])| == 2 {
        assert e[2..] == tail;
      } else {
        assert e[1..] == tail;
      }
      assert [s[0]] + s[1..] == s;
    }
  }

  // ---------------------------------------------------------------------------
  // Decimal issue times

  function DigitChar(d: nat): (r: char)
    requires d < 10
  {
    (48 + d) as char
  }

  /** The decimal text of `n`. */
  function Decimal(n: nat): (s: string)
    ensures |s| >= 1
    ensures forall k :: 0 <= k < |s| ==> '0' <= s[k] <= '9'
  {
    if n < 10 then [DigitChar(n)] else Decimal(n / 10) + [DigitChar(n % 10)]
  }

  /** The number a string of decimal digits denotes; `None` for anything else. */
  function ParseDecimal(s: string): (r: Option<nat>)
  {
    if s == [] || !('0' <= s[|s| - 1] <= '9') then None
    else
      var d := (s[|s| - 1] as int - 48) as nat;
      if |s| == 1 then Some(d)
      else
        match ParseDecimal(s[..|s| - 1])
        case Some(n) => Some(10 * n + d)
        case None => None
  }

  lemma {:induction false} ParseDecimalOf(n: nat)
    ensures ParseDecimal(Decimal(n)) == Some(n)
  {
    if n >= 10 {
      var s := Decimal(n);
      assert s[..|s| - 1] == Decimal(n / 10);
      ParseDecimalOf(n / 10);
    }
  }

  // ---------------------------------------------------------------------------
  // Signing and verifying

  const AccessTag: string := "A"
  const RefreshTag: string := "R"

  /** `jwt.sign({userData: {firstName, lastName, id, profilePicture}}, JWT_ACCESS_KEY_SECRET)` at time `iat`. */
  function SignAccess(u: UserData, iat: nat): (token: string)
    ensures ' ' !in token
  {
    var parts := [AccessTag, Escape(u.firstName), Escape(u.lastName), Escape(u.id), Escape(u.profilePicture), Decimal(iat)];
    JoinAvoids(parts, '.', ' ');
    Join(parts, '.')
  }

  /** `jwt.sign({userData: {id}}, JWT_REFRESH_KEY_SECRET)` at time `iat`. */
  function SignRefresh(id: Id, iat: nat): (token: string)
    ensures ' ' !in token
  {
    var parts := [RefreshTag, Escape(id), Decimal(iat)];
    JoinAvoids(parts, '.', ' ');
    Join(parts, '.')
  }

  /** `jwt.verify(token, JWT_ACCESS_KEY_SECRET)`: the claims, or `None` for the error callback. */
  function VerifyAccess(token: string): (r: Option<AccessClaims>) {
    var parts := Split(token, '.');
    if |parts| != 6 || parts[0] != AccessTag then None
    else
      match (Unescape(parts[1]), Unescape(parts[2]), Unescape(parts[3]), Unescape(parts[4]), ParseDecimal(parts[5]))
      case (Some(f), Some(l), Some(i), Some(p), Some(t)) => Some(AccessClaims(UserData(f, l, i, p), t))
      case _ => None
  }

  /** `jwt.verify(token, JWT_REFRESH_KEY_SECRET)`. */
  function VerifyRefresh(token: string): (r: Option<RefreshClaims>) {
    var parts := Split(token, '.');
    if |parts| != 3 || parts[0] != RefreshTag then None
    else
      match (Unescape(parts[1]), ParseDecimal(parts[2]))
      case (Some(i), Some(t)) => Some(RefreshClaims(i, t))
      case _ => None
  }

  lemma SignAccessParts(u: UserData, iat: nat)
    ensures Split(SignAccess(u, iat), '.') ==
      [AccessTag, Escape(u.firstName), Escape(u.lastName), Escape(u.id), Escape(u.profilePicture), Decimal(iat)]
  {
    var parts := [AccessTag, Escape(u.firstName), Escape(u.lastName), Escape(u.id), Escape(u.profilePicture), Decimal(iat)];
    SplitJoin(parts, '.');
  }

  lemma SignRefreshParts(id: Id, iat: nat)
    ensures Split(SignRefresh(id, iat), '.') == [RefreshTag, Escape(id), Decimal(iat)]
  {
    SplitJoin([RefreshTag, Escape(id), Decimal(iat)], '.');
  }

  /** Verifying an access token with the access secret returns the claims it was signed with. */
  lemma VerifySignedAccess(u: UserData, iat: nat)
    ensures VerifyAccess(SignAccess(u, iat)) == Some(AccessClaims(u, iat))
  {
    SignAccessParts(u, iat);
    UnescapeEscape(u.firstName);
    UnescapeEscape(u.lastName);
    UnescapeEscape(u.id);
    UnescapeEscape(u.profilePicture);
    ParseDecimalOf(iat);
  }

  /** Verifying a refresh token with the refresh secret returns the id and time it was signed with. */
  lemma VerifySignedRefresh(id: Id, iat: nat)
    ensures VerifyRefresh(SignRefresh(id, iat)) == Some(RefreshClaims(id, iat))
  {
    SignRefreshParts(id, iat);
    UnescapeEscape(id);
    ParseDecimalOf(iat);
  }

  /** The two secrets are distinct: neither accepts a token the other signed. */
  lemma SecretsDistinct(u: UserData, id: Id, t1: nat, t2: nat)
    ensures VerifyRefresh(SignAccess(u, t1)) == None
    ensures VerifyAccess(SignRefresh(id, t2)) == None
  {
    SignAccessParts(u, t1);
    SignRefreshParts(id, t2);
  }

  /** Two refresh tokens are the same text only when they name the same user and time. */
  lemma SignRefreshInjective(id1: Id, t1: nat, id2: Id, t2: nat)
    requires SignRefresh(id1, t1) == SignRefresh(id2, t2)
    ensures id1 == id2 && t1 == t2
  {
    VerifySignedRefresh(id1, t1);
    VerifySignedRefresh(id2, t2);
  }

  // ---------------------------------------------------------------------------
  // bcryptjs

  /** bcryptjs reads at most this many bytes of a password. */
  const MaxPasswordLength: nat := 72

  /** The part of a password bcryptjs reads (characters standing for bytes). */
  function Significant(password: string): (r: string)
    ensures |r| <= MaxPasswordLength
    ensures r <= password
    ensures |password| <= MaxPasswordLength ==> r == password
  {
    if |password| <= MaxPasswordLength then password else password[..MaxPasswordLength]
  }

  /** `bcrypt.hash(password, 10)`, with the salt left out. */
  function Hash(password: string): (r: string) {
    "$2a$10$" + Significant(password)
  }

  /** `bcrypt.compare(password, hash)`. */
  predicate Matches(password: string, hash: string) {
    hash == Hash(password)
  }

  /** A password matches its own hash, and another password matches it
      exactly when the two agree on the part bcryptjs reads: up to 72
      characters nothing else matches, beyond that the tail is ignored. */
  lemma MatchesUpToLimit(p: string, q: string)
    ensures Matches(p, Hash(p))
    ensures Matches(q, Hash(p)) <==> Significant(q) == Significant(p)
    ensures |p| <= MaxPasswordLength && |q| <= MaxPasswordLength ==> (Matches(q, Hash(p)) <==> q == p)
  {
    if Matches(q, Hash(p)) {
      assert Significant(q) == Hash(q)[7..] == Hash(p)[7..] == Significant(p);
    }
  }

  /** Two passwords that share their first 72 characters match each other's
      hash, however they differ after that. */
  lemma LongPasswordsCollide(p: string, q: string)
    requires |p| >= MaxPasswordLength && |q| >= MaxPasswordLength
    requires p[..MaxPasswordLength] == q[..MaxPasswordLength]
    ensures Matches(q, Hash(p)) && Matches(p, Hash(q))
  {
    MatchesUpToLimit(p, q);
    MatchesUpToLimit(q, p);
  }
}
