/**
 * JavaScript template literals: fixed pieces of text with a `${…}` hole
 * between each two of them, each hole filled with a string value.
 */
module Templates {

  /** The text of a template literal whose holes hold `values`, in order. */
  function Interpolate(pieces: seq<string>, values: seq<string>): (r: string)
    requires |pieces| == |values| + 1
    ensures |r| >= |pieces[0]| && r[..|pieces[0]|] == pieces[0]
    decreases |values|
  {
    if values == [] then pieces[0]
    else pieces[0] + (values[0] + Interpolate(pieces[1..], values[1..]))
  }

  /**
   * A template with two holes: each value stands, unaltered, between the
   * pieces around its hole.
   */
  lemma TwoHoles(a: string, x: string, b: string, y: string, c: string)
    ensures Interpolate([a, b, c], [x, y]) == a + x + b + y + c
    ensures var s := a + x + b + y + c; var i := |a|; var j := i + |x| + |b|;
      && s[i..i + |x|] == x && s[i + |x|..j] == b && s[j..j + |y|] == y && s[j + |y|..] == c
  {
    assert [a, b, c][1..] == [b, c] && [b, c][1..] == [c];
    assert [x, y][1..] == [y] && [y][1..] == [];
    assert Interpolate([b, c], [y]) == b + (y + c);
    assert Interpolate([a, b, c], [x, y]) == a + (x + (b + (y + c)));
  }

  /**
   * A template with three holes: each value stands, unaltered, between the
   * pieces around its hole.
   */
  lemma ThreeHoles(a: string, x: string, b: string, y: string, c: string, z: string, d: string)
    ensures Interpolate([a, b, c, d], [x, y, z]) == a + x + b + y + c + z + d
    ensures var s := a + x + b + y + c + z + d; var i := |a|; var j := i + |x| + |b|; var k := j + |y| + |c|;
      && s[i..i + |x|] == x && s[i + |x|..j] == b && s[j..j + |y|] == y && s[j + |y|..k] == c
      && s[k..k + |z|] == z && s[k + |z|..] == d
  {
    assert [a, b, c, d][1..] == [b, c, d] && [b, c, d][1..] == [c, d] && [c, d][1..] == [d];
    assert [x, y, z][1..] == [y, z] && [y, z][1..] == [z] && [z][1..] == [];
    assert Interpolate([c, d], [z]) == c + (z + d);
    assert Interpolate([b, c, d], [y, z]) == b + (y + (c + (z + d)));
    assert Interpolate([a, b, c, d], [x, y, z]) == a + (x + (b + (y + (c + (z + d)))));
    SevenPieces(a, x, b, y, c, z, d);
  }

  /** Each of seven concatenated pieces can be cut back out at its offset. */
  lemma SevenPieces(a: string, x: string, b: string, y: string, c: string, z: string, d: string)
    ensures var s := a + x + b + y + c + z + d; var i := |a|; var j := i + |x| + |b|; var k := j + |y| + |c|;
      && s[i..i + |x|] == x && s[i + |x|..j] == b && s[j..j + |y|] == y && s[j + |y|..k] == c
      && s[k..k + |z|] == z && s[k + |z|..] == d
  {
    Piece(a, x, b + y + c + z + d);
    Piece(a + x, b, y + c + z + d);
    Piece(a + x + b, y, c + z + d);
    Piece(a + x + b + y, c, z + d);
    Piece(a + x + b + y + c, z, d);
  }

  /** The middle of three pieces, and what follows it, can be cut back out. */
  lemma Piece(p: string, m: string, q: string)
    ensures (p + m + q)[|p|..|p| + |m|] == m && (p + m + q)[|p| + |m|..] == q
  {
  }
}
