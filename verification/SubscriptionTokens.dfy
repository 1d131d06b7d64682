/**
 Subscription tokens of packages/db/src/store.ts: an account id and the HMAC of
 the id and the account's secret, as unpadded base64url. The HMAC is any function of
 key and text; where it matters it writes hexadecimal digits and is injective.
 */
module SubscriptionTokens {
  import opened Wrappers
  import opened AccountStore
  import opened AccountLaws
  import B = Base64Url

  type Hmac = (string, string) -> string

  // ---------- text and bytes ----------

  predicate Ascii(s: string) {
    forall i :: 0 <= i < |s| ==> s[i] as int < 128
  }

  /** UTF-8 of ASCII text. */
  function Bytes(s: string): (r: seq<B.Byte>)
    requires Ascii(s)
    ensures |r| == |s|
    ensures forall i :: 0 <= i < |s| ==> r[i] == s[i] as int
  {
    if s == "" then [] else [s[0] as int] + Bytes(s[1..])
  }

  /** UTF-8 decoding, every non-ASCII byte as the replacement character. */
  function Text(bytes: seq<B.Byte>): (r: string)
    ensures |r| == |bytes|
    ensures forall i :: 0 <= i < |bytes| ==> r[i] == if bytes[i] < 128 then bytes[i] as char else '\U{FFFD}'
  {
    if bytes == [] then "" else [if bytes[0] < 128 then bytes[0] as char else '\U{FFFD}'] + Text(bytes[1..])
  }

  /** The first piece of a split at c. */
  function Before(s: string, c: char): string {
    if s == "" || s[0] == c then "" else [s[0]] + Before(s[1..], c)
  }

  // ---------- the code ----------

  function Signed(a: Account): string {
    if a.secret.Some? && a.secret.value != "" then a.id + "." + a.secret.value else a.id
  }

  function Plain(a: Account, key: string, hmac: Hmac): string {
    a.id + "." + hmac(key, Signed(a))
  }

  /** `subscriptionToken`. */
  function TokenOf(a: Account, key: string, hmac: Hmac): Option<string>
    requires Ascii(Plain(a, key, hmac))
  {
    if key == "" then None else Some(B.Encode(Bytes(Plain(a, key, hmac))))
  }

  /** The text a token stands for, whatever the token. */
  function Decoded(token: string): string {
    Text(B.StandardDecode(B.ReplaceAll(B.ReplaceAll(token, '-', '+'), '_', '/')))
  }

  /** The two pieces of `decoded.split(".", 2)`. */
  function IdPiece(decoded: string): string {
    Before(decoded, '.')
  }

  function SigPiece(decoded: string): string {
    if |IdPiece(decoded)| < |decoded| then Before(decoded[|IdPiece(decoded)| + 1..], '.') else ""
  }

  /** `resolveSubscriptionToken`. */
  function Resolve(rows: seq<Account>, key: string, hmac: Hmac, token: string): Option<Account> {
    var decoded := Decoded(token);
    if '.' !in decoded || key == "" then None
    else
      var row := Find(rows, IdPiece(decoded));
      if row.None? || hmac(key, Signed(row.value)) != SigPiece(decoded) then None else row
  }

  // ---------- decoding what was encoded ----------

  lemma {:induction false} SextetsIgnorePadding(s: string, pad: string)
    requires forall i :: 0 <= i < |pad| ==> pad[i] == '='
    ensures B.Sextets(s + pad) == B.Sextets(s)
  {
    if s == "" {
      assert s + pad == pad;
    } else {
      assert (s + pad)[1..] == s[1..] + pad;
      SextetsIgnorePadding(s[1..], pad);
    }
  }

  lemma DecodedEncode(text: string)
    requires Ascii(text)
    ensures Decoded(B.Encode(Bytes(text))) == text
  {
    var token := B.Encode(Bytes(text));
    var standard := B.ReplaceAll(B.ReplaceAll(token, '-', '+'), '_', '/');
    SextetsIgnorePadding(standard, B.Padding(|standard|));
    B.DecodeEncode(Bytes(text));
    assert Decoded(token) == Text(B.Decode(token));
  }

  lemma {:induction false} BeforePrefix(s: string, c: char, tail: string)
    requires c !in s && (tail == "" || tail[0] == c)
    ensures Before(s + tail, c) == s
  {
    if s == "" {
      assert s + tail == tail;
    } else {
      assert (s + tail)[1..] == s[1..] + tail;
      BeforePrefix(s[1..], c, tail);
    }
  }

  lemma {:induction false} BeforeSplits(s: string, c: char)
    ensures var p := Before(s, c);
            && c !in p && |p| <= |s| && s[..|p|] == p && (|p| == |s| || s[|p|] == c)
            && (c in s <==> |p| < |s|)
  {
    if s != "" && s[0] != c {
      BeforeSplits(s[1..], c);
      var q := Before(s[1..], c);
      assert s[..|q| + 1] == [s[0]] + s[1..][..|q|];
    }
  }

  // ---------- what a token resolves to ----------

  predicate Terminated(tail: string) {
    tail == "" || tail[0] == '.'
  }

  /**
   A token resolves to a row exactly when that row is the one found under its id and
   the token's text is the row's id, a dot and the row's current signature, up to
   the end of the text or a further dot.
   */
  lemma ResolvesIff(rows: seq<Account>, key: string, hmac: Hmac, token: string, a: Account)
    requires forall text: string :: '.' !in hmac(key, text)
    ensures Resolve(rows, key, hmac, token) == Some(a)
       <==> && key != "" && Find(rows, a.id) == Some(a)
            && exists tail :: Terminated(tail) && Decoded(token) == Plain(a, key, hmac) + tail
  {
    var decoded := Decoded(token);
    if Resolve(rows, key, hmac, token) == Some(a) {
      var tail := PiecesSplit(decoded);
      FindId(rows, IdPiece(decoded));
    }
    if key != "" && Find(rows, a.id) == Some(a)
       && exists tail :: Terminated(tail) && decoded == Plain(a, key, hmac) + tail {
      var tail :| Terminated(tail) && decoded == Plain(a, key, hmac) + tail;
      ResolvePlain(rows, key, hmac, token, a, tail);
    }
  }

  lemma PiecesSplit(decoded: string) returns (tail: string)
    requires '.' in decoded
    ensures Terminated(tail) && decoded == IdPiece(decoded) + "." + SigPiece(decoded) + tail
  {
    BeforeSplits(decoded, '.');
    var id, rest := IdPiece(decoded), decoded[|IdPiece(decoded)| + 1..];
    BeforeSplits(rest, '.');
    tail := rest[|SigPiece(decoded)|..];
    TwoPieces(decoded, id, rest, SigPiece(decoded), tail);
  }

  lemma TwoPieces(decoded: string, id: string, rest: string, sig: string, tail: string)
    requires |id| < |decoded| && decoded[..|id|] == id && decoded[|id|] == '.' && rest == decoded[|id| + 1..]
    requires rest == sig + tail
    ensures decoded == id + "." + sig + tail
  {
    assert decoded == id + "." + rest;
  }

  lemma PiecesJoin(id: string, sig: string, tail: string)
    requires '.' !in id && '.' !in sig && Terminated(tail)
    ensures var decoded := id + "." + sig + tail;
            '.' in decoded && IdPiece(decoded) == id && SigPiece(decoded) == sig
  {
    var decoded := id + "." + sig + tail;
    var rest := "." + (sig + tail);
    assert decoded == id + rest && decoded[|id|] == '.';
    BeforePrefix(id, '.', rest);
    assert decoded[|id| + 1..] == sig + tail;
    BeforePrefix(sig, '.', tail);
  }

  lemma FindId(rows: seq<Account>, id: string)
    ensures Find(rows, id).Some? ==> Find(rows, id).value.id == id && ValidId(id)
  {
  }

  lemma ResolvePlain(rows: seq<Account>, key: string, hmac: Hmac, token: string, a: Account, tail: string)
    requires '.' !in hmac(key, Signed(a))
    requires key != "" && Find(rows, a.id) == Some(a) && Terminated(tail) && Decoded(token) == Plain(a, key, hmac) + tail
    ensures Resolve(rows, key, hmac, token) == Some(a)
  {
    NoDot(a.id);
    PiecesJoin(a.id, hmac(key, Signed(a)), tail);
  }

  /** Ids are written in the alphabet of base64url. */
  lemma IdAlphabet(c: char)
    ensures IdChar(c) <==> B.UrlSafe(c)
  {}

  lemma NoDot(id: string)
    requires ValidId(id)
    ensures '.' !in id && Ascii(id)
  {
    forall i | 0 <= i < |id| ensures id[i] != '.' && id[i] as int < 128 { assert IdChar(id[i]); }
  }

  ghost predicate Hexadecimal(key: string, hmac: Hmac) {
    forall text: string :: forall i :: 0 <= i < |hmac(key, text)| ==>
      '0' <= hmac(key, text)[i] <= '9' || 'a' <= hmac(key, text)[i] <= 'f'
  }

  ghost predicate Injective(key: string, hmac: Hmac) {
    forall a: string, b: string :: hmac(key, a) == hmac(key, b) ==> a == b
  }

  lemma HexFacts(key: string, hmac: Hmac, text: string)
    requires Hexadecimal(key, hmac)
    ensures '.' !in hmac(key, text) && Ascii(hmac(key, text))
  {
  }

  lemma PlainAscii(a: Account, key: string, hmac: Hmac)
    requires Hexadecimal(key, hmac) && ValidId(a.id)
    ensures Ascii(Plain(a, key, hmac))
  {
    NoDot(a.id);
    HexFacts(key, hmac, Signed(a));
  }

  /** The token of any account found in the table resolves to that account. */
  lemma TokenRoundTrip(rows: seq<Account>, a: Account, key: string, hmac: Hmac)
    requires Hexadecimal(key, hmac) && key != "" && Find(rows, a.id) == Some(a)
    ensures Ascii(Plain(a, key, hmac))
    ensures Resolve(rows, key, hmac, TokenOf(a, key, hmac).value) == Some(a)
  {
    FindId(rows, a.id);
    PlainAscii(a, key, hmac);
    HexFacts(key, hmac, Signed(a));
    DecodedEncode(Plain(a, key, hmac));
    assert Plain(a, key, hmac) + "" == Plain(a, key, hmac);
    ResolvePlain(rows, key, hmac, TokenOf(a, key, hmac).value, a, "");
  }

  /** What a token says: the id, a dot, and the signature of the id and the secret, or of the id alone if there is none. */
  lemma TokenText(a: Account, key: string, hmac: Hmac)
    requires Hexadecimal(key, hmac) && key != "" && ValidId(a.id)
    ensures Ascii(Plain(a, key, hmac))
    ensures Decoded(TokenOf(a, key, hmac).value) == a.id + "." + hmac(key,
              if a.secret.None? || a.secret.value == "" then a.id else a.id + "." + a.secret.value)
  {
    PlainAscii(a, key, hmac);
    DecodedEncode(Plain(a, key, hmac));
  }

  // ---------- over runs ----------

  /** A token issued for a row keeps resolving to that account until a rotation or deletion. */
  lemma TokenLasts(s: Accounts, run: seq<Event>, a: Account, key: string, hmac: Hmac)
    requires Hexadecimal(key, hmac) && key != "" && Sane(s) && Find(s.rows, a.id) == Some(a)
    requires Legal(s, run) && LeavesAlone(run, a.id)
    ensures Ascii(Plain(a, key, hmac))
    ensures var rows := After(s, run).rows;
            Find(rows, a.id).Some? && Resolve(rows, key, hmac, TokenOf(a, key, hmac).value) == Find(rows, a.id)
  {
    RunHolds(s, run, a);
    var rows := After(s, run).rows;
    var b := Find(rows, a.id).value;
    FindId(rows, a.id);
    assert Identity(a).id == Identity(b).id && Identity(a).secret == Identity(b).secret;
    assert Signed(a) == Signed(b);
    TokenRoundTrip(rows, b, key, hmac);
  }

  /** The id has been given out and no row with it has this secret. */
  ghost predicate Revoked(s: Accounts, id: string, secret: string) {
    id in s.minted && secret in s.minted
    && forall k :: 0 <= k < |s.rows| && s.rows[k].id == id ==> s.rows[k].secret != Some(secret)
  }

  lemma StepRevoked(s: Accounts, e: Event, id: string, secret: string)
    requires Sane(s) && Enabled(s, e) && Revoked(s, id, secret)
    ensures Revoked(Apply(s, e), id, secret)
  {
    if Attempt(s.rows, e).Ok? {
      assert id !in Draws(e) && secret !in Draws(e);
      match e
      case Create(newId, _, drawn, _) =>
        assert newId in Draws(e);
      case Update(_, _) =>
      case Rotate(_, _, drawn, _) =>
        assert drawn in Draws(e);
      case Delete(_) =>
    }
  }

  lemma {:induction false} RunRevoked(s: Accounts, run: seq<Event>, id: string, secret: string)
    requires Sane(s) && Legal(s, run) && Revoked(s, id, secret)
    ensures Sane(After(s, run)) && Revoked(After(s, run), id, secret)
    decreases |run|
  {
    if run == [] {
    } else {
      StepSane(s, run[0]);
      StepRevoked(s, run[0], id, secret);
      RunRevoked(Apply(s, run[0]), run[1..], id, secret);
    }
  }

  lemma RevokedUnresolved(s: Accounts, a: Account, key: string, hmac: Hmac)
    requires Hexadecimal(key, hmac) && Injective(key, hmac) && ValidId(a.id) && key != ""
    requires Sane(s) && a.secret.Some? && a.secret.value != "" && Revoked(s, a.id, a.secret.value)
    ensures Ascii(Plain(a, key, hmac))
    ensures Resolve(s.rows, key, hmac, TokenOf(a, key, hmac).value).None?
  {
    PlainAscii(a, key, hmac);
    var token, row := TokenOf(a, key, hmac).value, Find(s.rows, a.id);
    TokenPieces(a, key, hmac);
    if row.Some? {
      RowSecret(s, a.id);
      SignedDiffer(a, row.value);
    }
  }

  lemma RowSecret(s: Accounts, id: string)
    requires Sane(s) && Find(s.rows, id).Some?
    ensures var row := Find(s.rows, id).value;
            row.id == id && row.secret.Some? && row.secret.value != ""
  {
    assert RowOk(s.rows[IndexOf(s.rows, id)], s.minted);
  }

  lemma TokenPieces(a: Account, key: string, hmac: Hmac)
    requires Hexadecimal(key, hmac) && ValidId(a.id) && key != "" && Ascii(Plain(a, key, hmac))
    ensures var decoded := Decoded(TokenOf(a, key, hmac).value);
            IdPiece(decoded) == a.id && SigPiece(decoded) == hmac(key, Signed(a))
  {
    DecodedEncode(Plain(a, key, hmac));
    NoDot(a.id);
    HexFacts(key, hmac, Signed(a));
    assert Plain(a, key, hmac) + "" == Plain(a, key, hmac);
    PiecesJoin(a.id, hmac(key, Signed(a)), "");
  }

  lemma SignedDiffer(a: Account, b: Account)
    requires a.id == b.id && a.secret.Some? && b.secret.Some? && a.secret != b.secret
    requires a.secret.value != "" && b.secret.value != ""
    ensures Signed(a) != Signed(b)
  {
    assert Signed(a)[|a.id| + 1..] == a.secret.value;
    assert Signed(b)[|b.id| + 1..] == b.secret.value;
  }

  /**
   After `regenerateProxyUuid` or a deletion the old token resolves to nothing, then
   and on every later run; after the rotation the new token resolves to the account.
   */
  lemma RotationRevokes(s: Accounts, e: Event, run: seq<Event>, key: string, hmac: Hmac)
    requires Hexadecimal(key, hmac) && Injective(key, hmac) && key != ""
    requires Sane(s) && Legal(s, [e] + run) && (e.Rotate? || e.Delete?) && Find(s.rows, e.id).Some?
    ensures var a := Find(s.rows, e.id).value;
            && Ascii(Plain(a, key, hmac))
            && Resolve(After(s, [e] + run).rows, key, hmac, TokenOf(a, key, hmac).value).None?
    ensures e.Rotate? ==>
              var a := Rotated(Find(s.rows, e.id).value, e.uuid, e.secret, e.now);
              && Ascii(Plain(a, key, hmac))
              && Resolve(Apply(s, e).rows, key, hmac, TokenOf(a, key, hmac).value) == Some(a)
  {
    assert ([e] + run)[1..] == run;
    OldTokenFails(s, e, run, key, hmac);
    if e.Rotate? {
      NewTokenResolves(s, e, key, hmac);
    }
  }

  lemma OldTokenFails(s: Accounts, e: Event, run: seq<Event>, key: string, hmac: Hmac)
    requires Hexadecimal(key, hmac) && Injective(key, hmac) && key != ""
    requires Sane(s) && Enabled(s, e) && Legal(Apply(s, e), run) && (e.Rotate? || e.Delete?) && Find(s.rows, e.id).Some?
    ensures var a := Find(s.rows, e.id).value;
            && Ascii(Plain(a, key, hmac))
            && Resolve(After(Apply(s, e), run).rows, key, hmac, TokenOf(a, key, hmac).value).None?
  {
    var i, a := IndexOf(s.rows, e.id), Find(s.rows, e.id).value;
    assert RowOk(s.rows[i], s.minted);
    StepSane(s, e);
    RevokedByStep(s, e);
    RunRevoked(Apply(s, e), run, a.id, a.secret.value);
    RevokedUnresolved(After(Apply(s, e), run), a, key, hmac);
  }

  lemma NewTokenResolves(s: Accounts, e: Event, key: string, hmac: Hmac)
    requires Hexadecimal(key, hmac) && key != ""
    requires Sane(s) && Enabled(s, e) && e.Rotate? && Find(s.rows, e.id).Some?
    ensures var a := Rotated(Find(s.rows, e.id).value, e.uuid, e.secret, e.now);
            && Ascii(Plain(a, key, hmac))
            && Resolve(Apply(s, e).rows, key, hmac, TokenOf(a, key, hmac).value) == Some(a)
  {
    var a := Rotated(Find(s.rows, e.id).value, e.uuid, e.secret, e.now);
    RotateSane(s, e);
    SaneGrow(s.rows, s.minted, s.minted + Draws(e));
    FindPut(s.rows, s.minted + Draws(e), a, e.id);
    TokenRoundTrip(Apply(s, e).rows, a, key, hmac);
  }

  lemma RevokedByStep(s: Accounts, e: Event)
    requires Sane(s) && Enabled(s, e) && (e.Rotate? || e.Delete?) && Find(s.rows, e.id).Some?
    ensures var a := Find(s.rows, e.id).value;
            a.secret.Some? && Revoked(Apply(s, e), e.id, a.secret.value)
  {
    var i, s' := IndexOf(s.rows, e.id), Apply(s, e);
    assert RowOk(s.rows[i], s.minted);
    forall k | 0 <= k < |s'.rows|
      ensures s'.rows[k].secret != s.rows[i].secret
    {
      if e.Rotate? {
        assert e.secret in Draws(e);
        assert k != i ==> s'.rows[k] == s.rows[k] && Apart(s.rows[i], s.rows[k]);
      } else {
        var j := if k < i then k else k + 1;
        assert s'.rows[k] == s.rows[j] && Apart(s.rows[i], s.rows[j]);
      }
    }
  }
}
