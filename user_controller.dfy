/**
 * The favourite-article toggle of the user controller: a request without an
 * article id is refused with 400, an unknown user gives 404, and otherwise
 * the article is removed from the user's favourites when present (every
 * copy, the other ids keeping their order) or appended at the end when
 * absent. Saving to the database is left out.
 */
module UserController {
  import opened Wrappers
  import opened Strings

  /** A user document; its favourites list is updated in place. */
  class User {
    var favorites: seq<string>

    constructor (favorites: seq<string>)
      ensures this.favorites == favorites
    {
      this.favorites := favorites;
    }
  }

  /** The HTTP answers of the toggle. */
  datatype Response =
    | BadRequest           // 400, "Article ID is required"
    | NotFound             // 404, "User not found"
    | Unfavorited(favorites: seq<string>)
    | Favorited(favorites: seq<string>)

  /** The request carries a usable article id: present and not the empty string. */
  predicate HasArticleId(articleId: Option<string>) {
    articleId.Some? && articleId.value != ""
  }

  /** The favourites after one toggle of `id`. */
  function Toggle(favorites: seq<string>, id: string): (r: seq<string>)
    ensures id in r <==> id !in favorites
    ensures forall x :: x != id ==> (x in r <==> x in favorites)
  {
    if id in favorites then Without(favorites, id) else favorites + [id]
  }

  /**
   * `toggleFavoriteArticle`: the user is looked up by id in `users` only
   * when the request has an article id; the found user's favourites are
   * toggled and answered.
   */
  method ToggleFavoriteArticle(articleId: Option<string>, userId: string, users: map<string, User>)
    returns (r: Response)
    modifies if userId in users then {users[userId]} else {}
    ensures !HasArticleId(articleId) ==> r == BadRequest
    ensures HasArticleId(articleId) && userId !in users ==> r == NotFound
    ensures HasArticleId(articleId) && userId in users ==>
      var user := users[userId];
      && user.favorites == Toggle(old(user.favorites), articleId.value)
      && r == (if articleId.value in old(user.favorites) then Unfavorited(user.favorites) else Favorited(user.favorites))
    ensures !HasArticleId(articleId) || userId !in users ==> forall u :: u in users.Values ==> unchanged(u)
  {
    if !HasArticleId(articleId) {
      return BadRequest;
    }
    if userId !in users {
      return NotFound;
    }
    var user := users[userId];
    var id := articleId.value;
    if id in user.favorites {
      user.favorites := Without(user.favorites, id);
      return Unfavorited(user.favorites);
    } else {
      user.favorites := user.favorites + [id];
      return Favorited(user.favorites);
    }
  }

  /** Removal keeps the other ids in their order: it is the list with `id` filtered out. */
  lemma {:induction false} WithoutKeepsOrder(xs: seq<string>, id: string, i: nat, j: nat)
    requires i < j < |Without(xs, id)|
    ensures exists p, q :: 0 <= p < q < |xs| && xs[p] == Without(xs, id)[i] && xs[q] == Without(xs, id)[j]
  {
    var rest := Without(xs[1..], id);
    if xs[0] == id {
      assert Without(xs, id) == rest;
      WithoutKeepsOrder(xs[1..], id, i, j);
      var p, q :| 0 <= p < q < |xs[1..]| && xs[1..][p] == rest[i] && xs[1..][q] == rest[j];
      assert xs[p + 1] == rest[i] && xs[q + 1] == rest[j];
    } else {
      assert Without(xs, id) == [xs[0]] + rest;
      if i == 0 {
        assert rest[j - 1] in rest;
        var q :| 0 <= q < |xs[1..]| && xs[1..][q] == rest[j - 1];
        assert xs[0] == Without(xs, id)[0] && xs[q + 1] == Without(xs, id)[j];
      } else {
        WithoutKeepsOrder(xs[1..], id, i - 1, j - 1);
        var p, q :| 0 <= p < q < |xs[1..]| && xs[1..][p] == rest[i - 1] && xs[1..][q] == rest[j - 1];
        assert xs[p + 1] == Without(xs, id)[i] && xs[q + 1] == Without(xs, id)[j];
      }
    }
  }

  /** A favourite is removed, with every copy of it, and the other ids stay. */
  lemma ToggleRemoves(favorites: seq<string>, id: string)
    requires id in favorites
    ensures id !in Toggle(favorites, id)
    ensures forall x :: x in Toggle(favorites, id) <==> x in favorites && x != id
    ensures |Toggle(favorites, id)| < |favorites|
  {
    WithoutShorter(favorites, id);
  }

  lemma {:induction false} WithoutShorter(xs: seq<string>, id: string)
    requires id in xs
    ensures |Without(xs, id)| < |xs|
  {
    if xs[0] != id {
      assert id in xs[1..];
      WithoutShorter(xs[1..], id);
    } else {
      assert |Without(xs[1..], id)| <= |xs[1..]|;
    }
  }

  /** An id not yet a favourite is appended at the end, after all the others. */
  lemma ToggleAppends(favorites: seq<string>, id: string)
    requires id !in favorites
    ensures Toggle(favorites, id) == favorites + [id]
    ensures id in Toggle(favorites, id)
  {
  }

  /**
   * Toggling twice restores the list exactly when the id was absent, or was
   * present once and last: a removal followed by an append moves the id to
   * the end.
   */
  lemma ToggleTwice(favorites: seq<string>, id: string)
    ensures Toggle(Toggle(favorites, id), id) == favorites <==>
      id !in favorites || favorites == Without(favorites, id) + [id]
  {
    if id !in favorites {
      WithoutAppended(favorites, id);
    } else {
      WithoutAbsent(Without(favorites, id), id);
    }
  }

  lemma {:induction false} WithoutAppended(xs: seq<string>, id: string)
    requires id !in xs
    ensures Without(xs + [id], id) == xs
  {
    if xs == [] {
      assert [id][1..] == [];
    } else {
      assert (xs + [id])[1..] == xs[1..] + [id];
      WithoutAppended(xs[1..], id);
    }
  }

  /** A favourites list toggled once per distinct id never holds an id twice. */
  lemma ToggleKeepsDistinct(favorites: seq<string>, id: string)
    requires NoDup(favorites)
    ensures NoDup(Toggle(favorites, id))
  {
    if id in favorites {
      WithoutDistinct(favorites, id);
    } else {
      NoDupSnoc(favorites, id);
    }
  }

  lemma NoDupCons(x: string, xs: seq<string>)
    requires NoDup(xs) && x !in xs
    ensures NoDup([x] + xs)
  {
    var ys := [x] + xs;
    forall i, j | 0 <= i < j < |ys| ensures ys[i] != ys[j] {
      assert ys[j] == xs[j - 1];
      if i > 0 {
        assert ys[i] == xs[i - 1];
      }
    }
  }

  lemma {:induction false} WithoutDistinct(xs: seq<string>, id: string)
    requires NoDup(xs)
    ensures NoDup(Without(xs, id))
  {
    if xs != [] {
      var rest := Without(xs[1..], id);
      assert NoDup(xs[1..]) by {
        forall i, j | 0 <= i < j < |xs[1..]| ensures xs[1..][i] != xs[1..][j] {
          assert xs[1..][i] == xs[i + 1] && xs[1..][j] == xs[j + 1];
        }
      }
      WithoutDistinct(xs[1..], id);
      if xs[0] != id {
        assert xs[0] !in xs[1..] by {
          forall k | 0 <= k < |xs[1..]| ensures xs[1..][k] != xs[0] {
            assert xs[1..][k] == xs[k + 1];
          }
        }
        assert xs[0] !in rest;
        NoDupCons(xs[0], rest);
        assert Without(xs, id) == [xs[0]] + rest;
      }
    }
  }
}
