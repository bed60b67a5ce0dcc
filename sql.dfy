/** Parameterised SQL as the controllers build it: a query text assembled by
    appending literal fragments, in which every `?` marks a placeholder, and
    the list of values pushed for the placeholders. The text is kept as a
    sequence of pieces, literal text or a placeholder, so that the number of
    placeholders can be reasoned about; `Render` gives back the query string. */
module Sql {
  import opened Common

  /** A value bound to a placeholder: a string or a number. */
  datatype Param = Str(s: string) | Int(i: int)

  datatype Piece = Text(text: string) | Hole

  /** The text of a query and the values for its placeholders. */
  datatype Query = Query(pieces: seq<Piece>, params: seq<Param>)

  function Holes(ps: seq<Piece>): nat
  {
    if ps == [] then 0 else (if ps[0] == Hole then 1 else 0) + Holes(ps[1..])
  }

  lemma {:induction false} HolesConcat(a: seq<Piece>, b: seq<Piece>)
    ensures Holes(a + b) == Holes(a) + Holes(b)
  {
    if a == [] {
      assert a + b == b;
    } else {
      assert (a + b)[1..] == a[1..] + b;
      HolesConcat(a[1..], b);
    }
  }

  lemma HolesCons(p: Piece, ps: seq<Piece>)
    ensures Holes([p] + ps) == (if p == Hole then 1 else 0) + Holes(ps)
  {
    assert ([p] + ps)[1..] == ps;
  }

  lemma ParamsAssoc(a: seq<Param>, b: seq<Param>, c: seq<Param>)
    ensures (a + b) + c == a + (b + c)
  {
  }

  /** Every placeholder of the text has a value and every value a placeholder. */
  predicate Matched(q: Query) {
    Holes(q.pieces) == |q.params|
  }

  /** `query += fragment` together with the `params.push` calls that follow
      it: the pieces and values of `q`, then those of the fragment. */
  function Append(q: Query, fragment: seq<Piece>, values: seq<Param>): (r: Query)
    requires Holes(fragment) == |values|
    ensures Matched(q) ==> Matched(r)
    ensures r.params == q.params + values
    ensures fragment != [] ==> r.pieces != [] && r.pieces[|r.pieces| - 1] == fragment[|fragment| - 1]
  {
    HolesConcat(q.pieces, fragment);
    Query(q.pieces + fragment, q.params + values)
  }

  /** The query string sent to the driver. */
  function Render(ps: seq<Piece>): string
  {
    if ps == [] then "" else (match ps[0] case Text(t) => t case Hole => "?") + Render(ps[1..])
  }

  function CountChar(s: string, c: char): nat
  {
    if s == [] then 0 else (if s[0] == c then 1 else 0) + CountChar(s[1..], c)
  }

  lemma {:induction false} CountCharConcat(a: string, b: string, c: char)
    ensures CountChar(a + b, c) == CountChar(a, c) + CountChar(b, c)
  {
    if a == [] {
      assert a + b == b;
    } else {
      assert (a + b)[1..] == a[1..] + b;
      CountCharConcat(a[1..], b, c);
    }
  }

  lemma {:induction false} CountCharAbsent(s: string, c: char)
    requires c !in s
    ensures CountChar(s, c) == 0
  {
    if s != [] {
      assert c !in s[1..] by {
        assert forall x | x in s[1..] :: x in s;
      }
      CountCharAbsent(s[1..], c);
    }
  }

  /** Literal fragments hold no question mark of their own. */
  predicate PlainText(ps: seq<Piece>) {
    forall k | 0 <= k < |ps| :: ps[k].Text? ==> '?' !in ps[k].text
  }

  /** When the literal fragments hold no question mark, the `?` characters
      of the rendered query string are exactly its placeholders. */
  lemma {:induction false} RenderHoles(ps: seq<Piece>)
    requires PlainText(ps)
    ensures CountChar(Render(ps), '?') == Holes(ps)
  {
    if ps != [] {
      var head := match ps[0] case Text(t) => t case Hole => "?";
      assert Render(ps) == head + Render(ps[1..]);
      CountCharConcat(head, Render(ps[1..]), '?');
      if ps[0].Text? {
        CountCharAbsent(head, '?');
      } else {
        assert head == ['?'];
        assert CountChar(head, '?') == 1 by {
          assert head[1..] == [];
        }
      }
      assert PlainText(ps[1..]) by {
        forall k | 0 <= k < |ps[1..]| ensures ps[1..][k].Text? ==> '?' !in ps[1..][k].text {
          assert ps[1..][k] == ps[k + 1];
        }
      }
      RenderHoles(ps[1..]);
    }
  }

  /** The `LIKE` argument the controllers push for a search term. */
  function LikeParam(search: string): (p: Param)
    ensures p.Str? && |p.s| == |search| + 2
    ensures p.s[0] == '%' && p.s[|p.s| - 1] == '%' && p.s[1..|p.s| - 1] == search
  {
    Str("%" + search + "%")
  }

  /** The query of a list handler with an optional search term: a fixed
      SELECT, then `filter` followed by a placeholder bound to `%search%`
      when a term is given, then a fixed ORDER BY. `getUsers`, `getRoles`
      and `getProyectos` build their queries this way. */
  method SearchQuery(select: string, filter: string, order: string, search: Option<string>) returns (q: Query)
    ensures Matched(q)
    ensures q.params == if Searching(search) then [LikeParam(search.value)] else []
    ensures q.pieces != [] && q.pieces[0] == Text(select) && q.pieces[|q.pieces| - 1] == Text(order)
  {
    HolesCons(Text(select), []);
    q := Query([Text(select)], []);
    if Searching(search) {
      HolesCons(Text(filter), [Hole]);
      HolesCons(Hole, []);
      q := Append(q, [Text(filter)] + [Hole], [LikeParam(search.value)]);
    }
    assert q.params + [] == q.params;
    q := Append(q, [Text(order)], []);
  }
}
