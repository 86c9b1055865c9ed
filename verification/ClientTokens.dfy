/**
 Client tokens: the SQLite table of `src/client_token_store.rs`, the sorted runtime list of
 `src/management_client_tokens.rs` that mirrors it, and the lookup of `src/auth.rs`.
 */
module ClientTokens {
  import opened Outcomes
  import opened Strings

  datatype Token = Token(
    id: string, name: string, tokenHash: string, enabled: bool,
    allowedModelGroups: seq<string>, allowedChannels: seq<string>)

  datatype TokenError = BadRequest | NotWritable | Duplicate | NotFound | Persistence | Conflict | EventAppendFailed
    | UnknownChannel

  // --- ORDER BY name, id ------------------------------------------------------------------------

  predicate Before(a: Token, b: Token) {
    if a.name == b.name then Le(a.id, b.id) else Le(a.name, b.name)
  }

  function Insert(t: Token, sorted: seq<Token>): seq<Token> {
    if sorted == [] || Before(t, sorted[0]) then [t] + sorted else [sorted[0]] + Insert(t, sorted[1..])
  }

  function Sort(tokens: seq<Token>): seq<Token> {
    if tokens == [] then [] else Insert(tokens[0], Sort(tokens[1..]))
  }

  ghost predicate Sorted(tokens: seq<Token>) {
    forall i, j :: 0 <= i < j < |tokens| ==> Before(tokens[i], tokens[j])
  }

  lemma BeforeIsTotal(a: Token, b: Token)
    ensures Before(a, b) || Before(b, a)
  {
    LeIsTotal(a.name, b.name);
    LeIsTotal(a.id, b.id);
  }

  lemma BeforeIsTransitive(a: Token, b: Token, c: Token)
    requires Before(a, b) && Before(b, c)
    ensures Before(a, c)
  {
    if a.name == b.name == c.name {
      LeIsTransitive(a.id, b.id, c.id);
    } else if a.name != b.name && b.name != c.name {
      LeIsTransitive(a.name, b.name, c.name);
      if a.name == c.name {
        LeIsAntisymmetric(a.name, b.name);
      }
    }
  }

  lemma {:induction false} InsertKeepsOrder(t: Token, sorted: seq<Token>)
    requires Sorted(sorted)
    ensures Sorted(Insert(t, sorted)) && multiset(Insert(t, sorted)) == multiset(sorted) + multiset{t}
  {
    if sorted == [] {
    } else if Before(t, sorted[0]) {
      forall j | 0 <= j < |sorted| ensures Before(t, sorted[j]) {
        if j > 0 { BeforeIsTransitive(t, sorted[0], sorted[j]); }
      }
    } else {
      var rest := sorted[1..];
      InsertKeepsOrder(t, rest);
      assert sorted == [sorted[0]] + rest;
      BeforeIsTotal(t, sorted[0]);
      forall x | x in Insert(t, rest) ensures Before(sorted[0], x) {
        assert x in multiset(Insert(t, rest));
        assert x == t || x in multiset(rest);
      }
    }
  }

  lemma {:induction false} SortIsSorted(tokens: seq<Token>)
    ensures Sorted(Sort(tokens)) && multiset(Sort(tokens)) == multiset(tokens)
  {
    if tokens != [] {
      SortIsSorted(tokens[1..]);
      InsertKeepsOrder(tokens[0], Sort(tokens[1..]));
      assert tokens == [tokens[0]] + tokens[1..];
    }
  }

  /** The list is alphabetical by name, and by id within one name. */
  lemma SortedByName(tokens: seq<Token>)
    ensures forall i, j :: 0 <= i < j < |Sort(tokens)| ==>
              Le(Sort(tokens)[i].name, Sort(tokens)[j].name)
              && (Sort(tokens)[i].name == Sort(tokens)[j].name ==> Le(Sort(tokens)[i].id, Sort(tokens)[j].id))
  {
    var sorted := Sort(tokens);
    SortIsSorted(tokens);
    forall i, j | 0 <= i < j < |sorted|
      ensures Le(sorted[i].name, sorted[j].name)
              && (sorted[i].name == sorted[j].name ==> Le(sorted[i].id, sorted[j].id))
    {
      assert Before(sorted[i], sorted[j]);
      LeIsTotal(sorted[i].name, sorted[i].name);
    }
  }

  // --- Uniqueness -------------------------------------------------------------------------------

  /** The primary key and the two unique columns. */
  ghost predicate Unique(tokens: seq<Token>) {
    forall i, j :: 0 <= i < j < |tokens| ==>
      tokens[i].id != tokens[j].id && tokens[i].name != tokens[j].name && tokens[i].tokenHash != tokens[j].tokenHash
  }

  /** The same, said of the elements. */
  ghost predicate KeysDetermine(tokens: seq<Token>) {
    && (forall a <- tokens, b <- tokens :: a.id == b.id || a.name == b.name || a.tokenHash == b.tokenHash ==> a == b)
    && (forall a <- tokens :: multiset(tokens)[a] == 1)
  }

  lemma {:induction false} UniqueMeansKeysDetermine(tokens: seq<Token>)
    ensures Unique(tokens) ==> KeysDetermine(tokens)
  {
    if tokens != [] && Unique(tokens) {
      var init, last := tokens[..|tokens| - 1], tokens[|tokens| - 1];
      UniqueMeansKeysDetermine(init);
      assert tokens == init + [last];
      assert last !in init;
    }
  }

  lemma KeysDetermineMeansUnique(tokens: seq<Token>)
    requires KeysDetermine(tokens)
    ensures Unique(tokens)
  {
    forall i, j | 0 <= i < j < |tokens| ensures tokens[i] != tokens[j] {
      var a, b := tokens[..j], tokens[j..];
      assert tokens == a + b && a[i] in multiset(a) && b[0] in multiset(b);
      assert multiset(tokens)[tokens[i]] == multiset(a)[tokens[i]] + multiset(b)[tokens[i]];
    }
  }

  /** Uniqueness does not depend on the order. */
  lemma UniqueOfPermutation(a: seq<Token>, b: seq<Token>)
    requires multiset(a) == multiset(b) && Unique(a)
    ensures Unique(b)
  {
    UniqueMeansKeysDetermine(a);
    assert forall t :: t in b <==> t in multiset(b);
    assert forall t :: t in a <==> t in multiset(a);
    KeysDetermineMeansUnique(b);
  }

  lemma HeadsAgree(a: seq<Token>, b: seq<Token>)
    requires Sorted(a) && Sorted(b) && multiset(a) == multiset(b) && KeysDetermine(a) && a != []
    ensures b != [] && a[0] == b[0]
  {
    assert a[0] in multiset(b) && |multiset(b)| > 0;
    assert b[0] in multiset(a);
    var i, j :| 0 <= i < |a| && a[i] == b[0] && 0 <= j < |b| && b[j] == a[0];
    BeforeIsTotal(a[0], a[0]);
    assert Before(a[0], b[0]) by { assert i > 0 ==> Before(a[0], a[i]); }
    assert Before(b[0], a[0]) by { assert j > 0 ==> Before(b[0], b[j]); }
    if a[0].name != b[0].name {
      LeIsAntisymmetric(a[0].name, b[0].name);
    }
  }

  /** Two sorted lists of the same tokens are the same list when the names are unique. */
  lemma {:induction false} SortedIsDetermined(a: seq<Token>, b: seq<Token>)
    requires Sorted(a) && Sorted(b) && multiset(a) == multiset(b) && Unique(a)
    ensures a == b
  {
    if a == [] {
      assert |multiset(b)| == 0;
    } else {
      UniqueMeansKeysDetermine(a);
      HeadsAgree(a, b);
      TailOf(a);
      TailOf(b);
      SortedIsDetermined(a[1..], b[1..]);
      assert a == [a[0]] + a[1..] && b == [b[0]] + b[1..];
    }
  }

  lemma TailOf(a: seq<Token>)
    requires a != []
    ensures Sorted(a) ==> Sorted(a[1..])
    ensures Unique(a) ==> Unique(a[1..])
    ensures multiset(a[1..]) == multiset(a) - multiset{a[0]}
  {
    assert a == [a[0]] + a[1..];
  }

  lemma SortOfPermutation(a: seq<Token>, b: seq<Token>)
    requires multiset(a) == multiset(b) && Unique(a)
    ensures Sort(a) == Sort(b)
  {
    SortIsSorted(a);
    SortIsSorted(b);
    UniqueOfPermutation(a, Sort(a));
    SortedIsDetermined(Sort(a), Sort(b));
  }

  // --- The runtime list -------------------------------------------------------------------------

  /** Overwrites the first token with the id, or pushes. */
  function Upsert(tokens: seq<Token>, updated: Token): seq<Token> {
    if tokens == [] then [updated]
    else if tokens[0].id == updated.id then [updated] + tokens[1..]
    else [tokens[0]] + Upsert(tokens[1..], updated)
  }

  /** The first token with the id. */
  function FindById(tokens: seq<Token>, id: string): Option<Token> {
    if tokens == [] then None else if tokens[0].id == id then Some(tokens[0]) else FindById(tokens[1..], id)
  }

  lemma {:induction false} FindByIdMeaning(tokens: seq<Token>, id: string)
    ensures FindById(tokens, id).None? <==> forall t <- tokens :: t.id != id
    ensures FindById(tokens, id).Some? ==> FindById(tokens, id).value in tokens && FindById(tokens, id).value.id == id
  {
    if tokens != [] {
      FindByIdMeaning(tokens[1..], id);
    }
  }

  /** Upserting is seen under its own id and nowhere else. */
  lemma {:induction false} UpsertFinds(tokens: seq<Token>, updated: Token, id: string)
    ensures FindById(Upsert(tokens, updated), id) == if id == updated.id then Some(updated) else FindById(tokens, id)
  {
    if tokens != [] && tokens[0].id != updated.id {
      UpsertFinds(tokens[1..], updated, id);
    }
  }

  lemma {:induction false} UpsertMultiset(tokens: seq<Token>, updated: Token)
    ensures var stored := FindById(tokens, updated.id);
            multiset(Upsert(tokens, updated))
            == (if stored.Some? then multiset(tokens) - multiset{stored.value} else multiset(tokens))
               + multiset{updated}
  {
    if tokens != [] {
      assert tokens == [tokens[0]] + tokens[1..];
      if tokens[0].id != updated.id {
        UpsertMultiset(tokens[1..], updated);
        FindByIdMeaning(tokens[1..], updated.id);
        var stored := FindById(tokens[1..], updated.id);
        assert stored.Some? ==> stored.value in multiset(tokens[1..]);
      }
    }
  }

  /** Two lists of the same tokens find the same token by id. */
  lemma FindInPermutation(a: seq<Token>, b: seq<Token>, id: string)
    requires multiset(a) == multiset(b) && Unique(a)
    ensures FindById(a, id) == FindById(b, id)
  {
    FindByIdMeaning(a, id);
    FindByIdMeaning(b, id);
    UniqueMeansKeysDetermine(a);
    assert forall t :: t in b <==> t in multiset(b);
    assert forall t :: t in a <==> t in multiset(a);
  }

  /** Upserting the same token into the table and into its sorted mirror keeps the mirror. */
  lemma MirrorUpsert(rows: seq<Token>, runtime: seq<Token>, updated: Token)
    requires Unique(rows) && runtime == Sort(rows) && Unique(Upsert(rows, updated))
    ensures Sort(Upsert(runtime, updated)) == Sort(Upsert(rows, updated))
  {
    SortIsSorted(rows);
    FindInPermutation(rows, runtime, updated.id);
    UpsertMultiset(rows, updated);
    UpsertMultiset(runtime, updated);
    SortOfPermutation(Upsert(rows, updated), Upsert(runtime, updated));
  }

  // --- Table operations -------------------------------------------------------------------------

  predicate ViolatesUnique(rows: seq<Token>, t: Token) {
    exists i :: 0 <= i < |rows| && (rows[i].id == t.id || rows[i].name == t.name || rows[i].tokenHash == t.tokenHash)
  }

  lemma InsertKeepsUnique(rows: seq<Token>, t: Token)
    requires Unique(rows)
    ensures Unique(rows + [t]) <==> !ViolatesUnique(rows, t)
  {
    if !ViolatesUnique(rows, t) {
      assert forall i :: 0 <= i < |rows| ==>
               rows[i].id != t.id && rows[i].name != t.name && rows[i].tokenHash != t.tokenHash;
    } else {
      var i :| 0 <= i < |rows| && (rows[i].id == t.id || rows[i].name == t.name || rows[i].tokenHash == t.tokenHash);
      assert (rows + [t])[i] == rows[i] && (rows + [t])[|rows|] == t;
    }
  }

  lemma {:induction false} UpsertNewIsInsert(rows: seq<Token>, t: Token)
    requires FindById(rows, t.id).None?
    ensures Upsert(rows, t) == rows + [t]
  {
    if rows != [] {
      UpsertNewIsInsert(rows[1..], t);
      assert rows + [t] == [rows[0]] + (rows[1..] + [t]);
    }
  }

  lemma {:induction false} UpdateKeepsEachKey(rows: seq<Token>, updated: Token)
    requires FindById(rows, updated.id).Some?
    requires var stored := FindById(rows, updated.id).value;
             stored.name == updated.name && stored.tokenHash == updated.tokenHash
    ensures |Upsert(rows, updated)| == |rows|
    ensures forall i :: 0 <= i < |rows| ==>
              var u := Upsert(rows, updated)[i];
              u.id == rows[i].id && u.name == rows[i].name && u.tokenHash == rows[i].tokenHash
  {
    if rows[0].id != updated.id {
      UpdateKeepsEachKey(rows[1..], updated);
    }
  }

  /** Changing only the enabled flag or the scopes of a row keeps every key. */
  lemma UpdateKeepsUnique(rows: seq<Token>, updated: Token)
    requires Unique(rows) && FindById(rows, updated.id).Some?
    requires var stored := FindById(rows, updated.id).value;
             stored.name == updated.name && stored.tokenHash == updated.tokenHash
    ensures Unique(Upsert(rows, updated)) && |Upsert(rows, updated)| == |rows|
    ensures forall i :: 0 <= i < |rows| ==>
              var u := Upsert(rows, updated)[i];
              u.id == rows[i].id && u.name == rows[i].name && u.tokenHash == rows[i].tokenHash
    ensures FindById(Upsert(rows, updated), updated.id) == Some(updated)
  {
    UpdateKeepsEachKey(rows, updated);
    UpsertFinds(rows, updated, updated.id);
  }

  // --- Keys -------------------------------------------------------------------------------------

  /** The columns that no update changes. */
  function KeyOf(t: Token): (string, string, string) {
    (t.id, t.name, t.tokenHash)
  }

  ghost function KeySet(tokens: seq<Token>): set<(string, string, string)> {
    set t <- tokens :: KeyOf(t)
  }

  lemma KeySetOfConcat(a: seq<Token>, b: seq<Token>)
    ensures KeySet(a + b) == KeySet(a) + KeySet(b)
  {
    assert forall t :: t in a + b <==> t in a || t in b;
  }

  lemma SortKeepsKeys(tokens: seq<Token>)
    ensures KeySet(Sort(tokens)) == KeySet(tokens)
  {
    SortIsSorted(tokens);
    assert forall t :: t in Sort(tokens) <==> t in multiset(Sort(tokens));
    assert forall t :: t in tokens <==> t in multiset(tokens);
  }

  /** Upserting a token adds its key, and replaces none if the token of that id had the same key. */
  lemma {:induction false} UpsertKeys(tokens: seq<Token>, updated: Token)
    requires forall t <- tokens :: t.id == updated.id ==> KeyOf(t) == KeyOf(updated)
    ensures KeySet(Upsert(tokens, updated)) == KeySet(tokens) + {KeyOf(updated)}
  {
    if tokens != [] {
      var head, rest := tokens[0], tokens[1..];
      assert tokens == [head] + rest;
      KeySetOfConcat([head], rest);
      if head.id == updated.id {
        KeySetOfConcat([updated], rest);
      } else {
        UpsertKeys(rest, updated);
        KeySetOfConcat([head], Upsert(rest, updated));
      }
    }
  }

  /** Under unique columns, a token found among the keys is the stored token of its id. */
  lemma KeyIsStored(rows: seq<Token>, stored: Token, t: Token)
    requires Unique(rows) && stored in rows && KeyOf(t) in KeySet(rows) && t.id == stored.id
    ensures KeyOf(t) == KeyOf(stored)
  {
    UniqueMeansKeysDetermine(rows);
    var r :| r in rows && KeyOf(r) == KeyOf(t);
    assert r.id == stored.id;
  }

  // --- Authorisation ----------------------------------------------------------------------------

  /** `authorize_client`: the first enabled token with the hash. */
  function Authorized(tokens: seq<Token>, tokenHash: string): Option<Token> {
    if tokens == [] then None
    else if tokens[0].enabled && tokens[0].tokenHash == tokenHash then Some(tokens[0])
    else Authorized(tokens[1..], tokenHash)
  }

  lemma {:induction false} AuthorizedMeaning(tokens: seq<Token>, tokenHash: string)
    ensures var r := Authorized(tokens, tokenHash);
            && (r.None? <==> forall t <- tokens :: !(t.enabled && t.tokenHash == tokenHash))
            && (r.Some? ==> r.value in tokens && r.value.enabled && r.value.tokenHash == tokenHash)
  {
    if tokens != [] {
      AuthorizedMeaning(tokens[1..], tokenHash);
    }
  }

  /** In any order of the stored rows, a token authorises exactly the one enabled row with its hash. */
  lemma AuthorizationIgnoresOrder(rows: seq<Token>, list: seq<Token>, tokenHash: string)
    requires Unique(rows) && multiset(list) == multiset(rows)
    ensures forall t :: Authorized(list, tokenHash) == Some(t) <==> t in rows && t.enabled && t.tokenHash == tokenHash
    ensures Authorized(list, tokenHash).None? <==> forall t <- rows :: !(t.enabled && t.tokenHash == tokenHash)
  {
    AuthorizedMeaning(list, tokenHash);
    UniqueMeansKeysDetermine(rows);
    assert forall t :: t in list <==> t in multiset(list);
    assert forall t :: t in rows <==> t in multiset(rows);
  }
}
