/**
 * Setting the allowed tokens of a collection (`tokens.service.ts`): the entered list is checked and stored, and
 * every live offer of the collection is switched to follow it.
 */
module TokenService {
  import opened Common
  import opened AllowedTokens

  datatype TokenOffer = TokenOffer(collection: nat, token: int, status: AskStatus)

  predicate IsLive(offer: TokenOffer) {
    offer.status == AskActive || offer.status == RemovedByAdmin
  }

  /** Two rows compete when both are live offers of one token. */
  predicate Competing(a: TokenOffer, b: TokenOffer) {
    IsLive(a) && IsLive(b) && a.collection == b.collection && a.token == b.token
  }

  predicate OneLivePerToken(offers: seq<TokenOffer>) {
    forall i, j :: 0 <= i < j < |offers| ==> !Competing(offers[i], offers[j])
  }

  /** The tokens an administrator allowed: an empty list allows the whole collection. */
  function AllowedList(allowedTokens: string, collectionList: seq<int>): seq<int>
    requires InAlphabet(allowedTokens)
  {
    if Parsed(allowedTokens) != [] then Parsed(allowedTokens) else collectionList
  }

  /** The offer as the list wants it. */
  function Reconciled(offer: TokenOffer, collection: nat, collectionList: seq<int>, allowed: seq<int>): TokenOffer {
    if offer.collection != collection || offer.token !in collectionList || !IsLive(offer) then offer
    else offer.(status := if offer.token in allowed then AskActive else RemovedByAdmin)
  }

  /** The offer row that the list finds wrong on a token: switched off though allowed, or on though not. */
  function WrongRow(collection: nat, token: int, allowed: seq<int>): TokenOffer {
    TokenOffer(collection, token, if token in allowed then RemovedByAdmin else AskActive)
  }

  /** How many rows are wrong on a token. */
  function WrongRows(offers: seq<TokenOffer>, collection: nat, token: int, allowed: seq<int>): nat {
    multiset(offers)[WrongRow(collection, token, allowed)]
  }

  function RightRow(collection: nat, token: int, allowed: seq<int>): TokenOffer {
    TokenOffer(collection, token, if token in allowed then AskActive else RemovedByAdmin)
  }

  function Left(wrong: nat, listed: nat): nat {
    if wrong <= listed then 0 else wrong - listed
  }

  ghost predicate EachOldOrFollowing(was: seq<TokenOffer>, offers: seq<TokenOffer>, collection: nat,
                                     collectionList: seq<int>, allowed: seq<int>)
    requires |offers| == |was|
  {
    forall i :: 0 <= i < |was| ==>
      offers[i] == was[i] || offers[i] == Reconciled(was[i], collection, collectionList, allowed)
  }

  ghost predicate AllFollow(was: seq<TokenOffer>, offers: seq<TokenOffer>, collection: nat,
                            collectionList: seq<int>, allowed: seq<int>)
    requires |offers| == |was|
  {
    forall i :: 0 <= i < |was| ==> offers[i] == Reconciled(was[i], collection, collectionList, allowed)
  }

  /** Each row is as before, or was wrong on the token and is right now. */
  ghost predicate EachOldOrRight(before: seq<TokenOffer>, offers: seq<TokenOffer>, collection: nat, token: int,
                                 allowed: seq<int>)
    requires |offers| == |before|
  {
    forall i :: 0 <= i < |before| ==>
      || offers[i] == before[i]
      || (before[i] == WrongRow(collection, token, allowed) && offers[i] == RightRow(collection, token, allowed))
  }

  lemma OneMoreRight(was: seq<TokenOffer>, before: seq<TokenOffer>, offers: seq<TokenOffer>, collection: nat,
                     collectionList: seq<int>, token: int, allowed: seq<int>)
    requires |was| == |before| == |offers| && token in collectionList
    requires EachOldOrFollowing(was, before, collection, collectionList, allowed)
    requires EachOldOrRight(before, offers, collection, token, allowed)
    ensures EachOldOrFollowing(was, offers, collection, collectionList, allowed)
  {}

  /** Each listing of a token has put one of its wrong rows right, as long as there were any. */
  ghost predicate CountsDown(was: seq<TokenOffer>, offers: seq<TokenOffer>, collection: nat,
                             listed: seq<int>, allowed: seq<int>)
  {
    forall token :: WrongRows(offers, collection, token, allowed)
                 == Left(WrongRows(was, collection, token, allowed), multiset(listed)[token])
  }

  lemma OneMoreListed(was: seq<TokenOffer>, before: seq<TokenOffer>, offers: seq<TokenOffer>, collection: nat,
                      listed: seq<int>, token: int, allowed: seq<int>)
    requires CountsDown(was, before, collection, listed, allowed)
    requires forall t :: WrongRows(offers, collection, t, allowed)
                      == Left(WrongRows(before, collection, t, allowed), if t == token then 1 else 0)
    ensures CountsDown(was, offers, collection, listed + [token], allowed)
  {
    forall t ensures multiset(listed + [token])[t] == multiset(listed)[t] + if t == token then 1 else 0 {}
  }

  /** Every row follows the list exactly when no listed token has a wrong row left. */
  lemma FollowIffNoneWrong(was: seq<TokenOffer>, offers: seq<TokenOffer>, collection: nat,
                           collectionList: seq<int>, allowed: seq<int>)
    requires |offers| == |was| && EachOldOrFollowing(was, offers, collection, collectionList, allowed)
    ensures AllFollow(was, offers, collection, collectionList, allowed)
       <==> forall token :: token in collectionList ==> WrongRows(offers, collection, token, allowed) == 0
  {
    forall i | 0 <= i < |was| && offers[i] != Reconciled(was[i], collection, collectionList, allowed)
      ensures was[i].token in collectionList && WrongRows(offers, collection, was[i].token, allowed) > 0
    {
      assert offers[i] == WrongRow(collection, was[i].token, allowed);
      assert offers[i] in multiset(offers);
    }
    forall token | token in collectionList && WrongRows(offers, collection, token, allowed) > 0
      ensures !AllFollow(was, offers, collection, collectionList, allowed)
    {
      assert WrongRow(collection, token, allowed) in offers;
      var i :| 0 <= i < |offers| && offers[i] == WrongRow(collection, token, allowed);
      assert offers[i] != Reconciled(was[i], collection, collectionList, allowed);
    }
  }

  lemma {:induction false} OneLiveIsOnce(offers: seq<TokenOffer>, row: TokenOffer)
    requires OneLivePerToken(offers) && IsLive(row)
    ensures multiset(offers)[row] <= 1
  {
    if offers != [] {
      var rest := offers[1..];
      assert offers == [offers[0]] + rest;
      forall i, j | 0 <= i < j < |rest| ensures !Competing(rest[i], rest[j]) {
        assert !Competing(offers[i + 1], offers[j + 1]);
      }
      OneLiveIsOnce(rest, row);
      forall j | 0 <= j < |rest| ensures offers[0] == row ==> rest[j] != row {
        assert !Competing(offers[0], offers[j + 1]);
      }
    }
  }

  /** When the whole list has been gone through, all rows follow exactly when no token had too many wrong rows. */
  lemma AllFollowIff(was: seq<TokenOffer>, offers: seq<TokenOffer>, collection: nat,
                     collectionList: seq<int>, allowed: seq<int>)
    requires |offers| == |was| && EachOldOrFollowing(was, offers, collection, collectionList, allowed)
    requires CountsDown(was, offers, collection, collectionList, allowed)
    ensures AllFollow(was, offers, collection, collectionList, allowed) <==>
      forall token :: token in collectionList ==>
        WrongRows(was, collection, token, allowed) <= multiset(collectionList)[token]
    ensures OneLivePerToken(was) ==> AllFollow(was, offers, collection, collectionList, allowed)
  {
    FollowIffNoneWrong(was, offers, collection, collectionList, allowed);
    if OneLivePerToken(was) {
      forall token | token in collectionList
        ensures WrongRows(was, collection, token, allowed) <= 1 <= multiset(collectionList)[token]
      {
        OneLiveIsOnce(was, WrongRow(collection, token, allowed));
      }
    }
  }

  class CollectionTokens {
    const collection: nat
    var allowedTokens: string
    var offers: seq<TokenOffer>

    /** A collection starts with the empty list (`collection.ts`); nothing but `AddTokens` writes it. */
    constructor (collection: nat, offers: seq<TokenOffer>)
      ensures this.collection == collection && this.offers == offers && allowedTokens == ""
    {
      this.collection, this.offers := collection, offers;
      allowedTokens := "";
    }

    /** `getArrayAllowedTokens`, its list of allowed tokens; `collectionList` is the chain's answer. */
    method GetArrayAllowedTokens(collectionList: seq<int>) returns (allowedList: seq<int>)
      requires InAlphabet(allowedTokens)
      ensures allowedList == AllowedList(allowedTokens, collectionList)
    {
      var parsed := ParseStringAllowedTokens(allowedTokens);
      allowedList := if |parsed| > 0 then parsed else collectionList;
    }

    /** `findOne` without an order: any row of the token with the wanted status, if there is one. */
    method FindOne(token: int, status: AskStatus) returns (found: Option<nat>)
      ensures found.Some? ==> found.value < |offers| && offers[found.value] == TokenOffer(collection, token, status)
      ensures found == None ==> TokenOffer(collection, token, status) !in offers
    {
      var wanted := TokenOffer(collection, token, status);
      if i :| 0 <= i < |offers| && offers[i] == wanted {
        found := Some(i);
      } else {
        found := None;
      }
    }

    /** The body of the loop in `removeTokens`: one wrong row of the token, if there is one, is put right. */
    method SwitchOffer(token: int, allowedList: seq<int>)
      requires allowedList != []
      modifies this`offers
      ensures |offers| == |old(offers)| && EachOldOrRight(old(offers), offers, collection, token, allowedList)
      ensures forall t :: WrongRows(offers, collection, t, allowedList)
                       == Left(WrongRows(old(offers), collection, t, allowedList), if t == token then 1 else 0)
    {
      if token in allowedList {
        var tokenActive := FindOne(token, RemovedByAdmin);
        if tokenActive.Some? {
          offers := offers[tokenActive.value := offers[tokenActive.value].(status := AskActive)];
        }
      } else {
        var tokenRemoved := FindOne(token, AskActive);
        if tokenRemoved.Some? {
          var status := if |allowedList| > 0 then RemovedByAdmin else AskActive;
          offers := offers[tokenRemoved.value := offers[tokenRemoved.value].(status := status)];
        }
      }
    }

    /** The loop of `removeTokens`. */
    method SwitchOffers(collectionList: seq<int>, allowedList: seq<int>)
      requires collectionList != [] ==> allowedList != []
      modifies this`offers
      ensures |offers| == |old(offers)|
      ensures EachOldOrFollowing(old(offers), offers, collection, collectionList, allowedList)
      ensures CountsDown(old(offers), offers, collection, collectionList, allowedList)
    {
      ghost var listed := [];
      for k := 0 to |collectionList|
        invariant |offers| == |old(offers)| && listed == collectionList[..k]
        invariant EachOldOrFollowing(old(offers), offers, collection, collectionList, allowedList)
        invariant CountsDown(old(offers), offers, collection, listed, allowedList)
      {
        ghost var before := offers;
        var token := collectionList[k];
        SwitchOffer(token, allowedList);
        OneMoreRight(old(offers), before, offers, collection, collectionList, token, allowedList);
        OneMoreListed(old(offers), before, offers, collection, listed, token, allowedList);
        listed := listed + [token];
      }
      assert listed == collectionList;
    }

    /**
     * `removeTokens`: each row is left alone or made to follow the list, and each time a token is listed one wrong
     * row of it is put right. So every row follows exactly when no token has more wrong rows than it is listed times,
     * which for the chain's list is once; with one live offer per token that is always the case.
     */
    method RemoveTokens(collectionList: seq<int>)
      requires InAlphabet(allowedTokens)
      modifies this`offers
      ensures |offers| == |old(offers)|
      ensures var allowed := AllowedList(allowedTokens, collectionList);
        && EachOldOrFollowing(old(offers), offers, collection, collectionList, allowed)
        && CountsDown(old(offers), offers, collection, collectionList, allowed)
        && (AllFollow(old(offers), offers, collection, collectionList, allowed) <==>
              forall token :: token in collectionList ==>
                WrongRows(old(offers), collection, token, allowed) <= multiset(collectionList)[token])
        && (OneLivePerToken(old(offers)) ==> AllFollow(old(offers), offers, collection, collectionList, allowed))
    {
      var allowedList := GetArrayAllowedTokens(collectionList);
      SwitchOffers(collectionList, allowedList);
      AllFollowIff(old(offers), offers, collection, collectionList, allowedList);
    }

    /**
     * `addTokens`: exactly the accepted lists are stored and applied; any other list changes nothing.
     */
    method AddTokens(tokens: string, collectionList: seq<int>) returns (ok: bool)
      modifies this
      ensures ok == Accepted(tokens)
      ensures !ok ==> allowedTokens == old(allowedTokens) && offers == old(offers)
      ensures ok ==> allowedTokens == tokens && |offers| == |old(offers)|
      ensures ok && OneLivePerToken(old(offers)) ==>
        forall i :: 0 <= i < |offers| ==>
          offers[i] == Reconciled(old(offers)[i], collection, collectionList, AllowedList(tokens, collectionList))
    {
      if !InAlphabet(tokens) {
        return false;
      }
      var fault := CheckoutTokens(tokens);
      if fault.Some? {
        return false;
      }
      allowedTokens := tokens;
      RemoveTokens(collectionList);
      ok := true;
    }
  }

  // ---------- what the pass achieves ----------

  function ReconciledAll(offers: seq<TokenOffer>, collection: nat, collectionList: seq<int>, allowed: seq<int>)
    : (r: seq<TokenOffer>)
    ensures |r| == |offers|
    ensures forall i :: 0 <= i < |offers| ==> r[i] == Reconciled(offers[i], collection, collectionList, allowed)
  {
    if offers == [] then []
    else [Reconciled(offers[0], collection, collectionList, allowed)] +
         ReconciledAll(offers[1..], collection, collectionList, allowed)
  }

  /** A well-formed list allows exactly the tokens its items cover. */
  lemma AllowedMeansCovered(items: seq<Item>, collectionList: seq<int>)
    requires items != [] && forall i :: 0 <= i < |items| ==> ItemOk(items[i])
    ensures Accepted(Print(items))
    ensures forall token :: token in AllowedList(Print(items), collectionList) <==> Covered(items, token)
  {
    PrintedListsAreRead(items);
    forall token ensures token in Expand(items) <==> Covered(items, token) {
      ExpandCovers(items, token);
    }
    var first := match items[0] case One(n) => n case Span(a, b) => a;
    assert ItemCovers(items[0], first);
    assert first in Expand(items);
  }

  /** An accepted list restricts nothing exactly when every piece of it is empty; "" is the shortest such list. */
  lemma EmptyListAllowsAll(collectionList: seq<int>)
    ensures Accepted("") && AllowedList("", collectionList) == collectionList
  {
    assert Parsed("") == [];
  }

  /** With the empty list every live offer on a token of the collection is switched on. */
  lemma EmptyListSwitchesAllOn(offer: TokenOffer, collection: nat, collectionList: seq<int>)
    ensures InAlphabet("")
    ensures var allowed := AllowedList("", collectionList);
      Reconciled(offer, collection, collectionList, allowed)
        == if IsLive(offer) && offer.collection == collection && offer.token in collectionList
           then offer.(status := AskActive) else offer
  {
    EmptyListAllowsAll(collectionList);
  }

  lemma ReconcilingIsIdempotent(offer: TokenOffer, collection: nat, collectionList: seq<int>, allowed: seq<int>)
    ensures var r := Reconciled(offer, collection, collectionList, allowed);
      && r.collection == offer.collection && r.token == offer.token && IsLive(r) == IsLive(offer)
      && Reconciled(r, collection, collectionList, allowed) == r
  {}

  /** Following a list leaves one live offer per token, and following it again changes nothing. */
  lemma ReconcilingIsStable(offers: seq<TokenOffer>, collection: nat, collectionList: seq<int>, allowed: seq<int>)
    requires OneLivePerToken(offers)
    ensures var after := ReconciledAll(offers, collection, collectionList, allowed);
      OneLivePerToken(after) && ReconciledAll(after, collection, collectionList, allowed) == after
  {
    var after := ReconciledAll(offers, collection, collectionList, allowed);
    forall i, j | 0 <= i < j < |after| ensures !Competing(after[i], after[j]) {
      assert !Competing(offers[i], offers[j]);
      ReconcilingIsIdempotent(offers[i], collection, collectionList, allowed);
      ReconcilingIsIdempotent(offers[j], collection, collectionList, allowed);
    }
    forall i | 0 <= i < |after| ensures ReconciledAll(after, collection, collectionList, allowed)[i] == after[i] {
      ReconcilingIsIdempotent(offers[i], collection, collectionList, allowed);
    }
  }

  /**
   * After a well-formed list is applied, a live offer of a collection token is active exactly when some item of the
   * list covers its token, an offer that was over or belongs elsewhere is untouched, the table still has one live
   * offer per token, and applying the list again changes nothing.
   */
  lemma OffersFollowTheList(offers: seq<TokenOffer>, collection: nat, collectionList: seq<int>, items: seq<Item>)
    requires OneLivePerToken(offers)
    requires items != [] && forall i :: 0 <= i < |items| ==> ItemOk(items[i])
    ensures Accepted(Print(items))
    ensures var allowed := AllowedList(Print(items), collectionList);
      var after := ReconciledAll(offers, collection, collectionList, allowed);
      && (forall i :: 0 <= i < |after| ==>
            var was := offers[i];
            after[i] == if was.collection == collection && was.token in collectionList && IsLive(was)
              then was.(status := if Covered(items, was.token) then AskActive else RemovedByAdmin)
              else was)
      && OneLivePerToken(after)
      && ReconciledAll(after, collection, collectionList, allowed) == after
  {
    PrintedListsAreRead(items);
    var allowed := AllowedList(Print(items), collectionList);
    AllowedMeansCovered(items, collectionList);
    ReconcilingIsStable(offers, collection, collectionList, allowed);
  }
}
