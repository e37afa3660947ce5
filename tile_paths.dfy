/**
 * Where a tile lands on disk. Both tilers write `<root>/<z>/<x>/<y>.png`
 * (os.path.join of the root, str(z) and str(x), then `f'{y}.png'`), and the
 * slippy tiler guards that file with a lock file at the same path plus `.lock`.
 */
module TilePaths {
  import opened PyStrings

  /** os.path.join(os.path.join(root, str(z), str(x)), f'{y}.png'). */
  function TilePath(root: string, z: int, x: int, y: int): string
  {
    Join(Join(Join(root, Str(z)), Str(x)), Str(y) + ".png")
  }

  /** The FileLock path: the tile path with `.lock` appended. */
  function LockPath(tilePath: string): (lock: string)
    ensures |lock| == |tilePath| + 5 && lock[..|tilePath|] == tilePath && EndsWith(lock, ".lock")
  {
    tilePath + ".lock"
  }

  /** A string without a separator. */
  predicate NoSlash(s: string) {
    forall i :: 0 <= i < |s| ==> s[i] != '/'
  }

  /** The part of a tile path after the root: `z/x/y.png`. */
  function RelativeTilePath(z: int, x: int, y: int): string
  {
    Str(z) + "/" + (Str(x) + "/" + (Str(y) + ".png"))
  }

  /** The tile path is the root's prefix followed by `z/x/y.png`, whatever the root is. */
  lemma TilePathLayout(root: string, z: int, x: int, y: int)
    ensures TilePath(root, z, x, y) == JoinPrefix(root) + RelativeTilePath(z, x, y)
    ensures EndsWith(TilePath(root, z, x, y), ".png")
  {
    var zs, xs, ys := Str(z), Str(x), Str(y) + ".png";
    var p := JoinPrefix(root);
    JoinRelative(root, zs);
    var d1 := p + zs;
    assert d1[|d1| - 1] == zs[|zs| - 1];
    JoinAfterName(d1, xs);
    var d2 := d1 + "/" + xs;
    JoinAfterName(d2, ys);
    Regroup(p, zs, xs, ys);
    EndsWithAppend(d2 + "/", ys, ".png");
  }

  /** `p + a/b/c` built left to right is `p` followed by `a/b/c`. */
  lemma Regroup(p: string, a: string, b: string, c: string)
    ensures p + a + "/" + b + "/" + c == p + (a + "/" + (b + "/" + c))
  {
  }

  /** A suffix of `b` is a suffix of anything ending in `b`. */
  lemma EndsWithAppend(a: string, b: string, suffix: string)
    requires EndsWith(b, suffix)
    ensures EndsWith(a + b, suffix)
  {
    assert (a + b)[|a + b| - |suffix|..] == b[|b| - |suffix|..];
  }

  /** In `a + "/" + r` with no separator in `a`, the first separator is at index |a|. */
  lemma FirstSlash(a: string, r: string)
    requires NoSlash(a)
    ensures (a + "/" + r)[|a|] == '/'
    ensures forall i :: 0 <= i < |a| ==> (a + "/" + r)[i] != '/'
  {
  }

  /** Two components separated by the first `/`: the part before it is determined. */
  lemma SplitAtSlash(a: string, r: string, b: string, s: string)
    requires NoSlash(a) && NoSlash(b) && a + "/" + r == b + "/" + s
    ensures a == b && r == s
  {
    FirstSlash(a, r);
    FirstSlash(b, s);
    assert |a| == |b|;
    var t := a + "/" + r;
    assert a == t[..|a|] == b;
    assert r == t[|a| + 1..] == s;
  }

  /**
   * Under one root, distinct tiles have distinct paths. So distinct tile
   * tasks never write, or lock, the same file.
   */
  lemma TilePathInjective(root: string, z: int, x: int, y: int, z': int, x': int, y': int)
    requires TilePath(root, z, x, y) == TilePath(root, z', x', y')
    ensures z == z' && x == x' && y == y'
  {
    TilePathLayout(root, z, x, y);
    TilePathLayout(root, z', x', y');
    var p := JoinPrefix(root);
    var tail, tail' := RelativeTilePath(z, x, y), RelativeTilePath(z', x', y');
    assert tail == (p + tail)[|p|..];
    assert tail' == (p + tail')[|p|..];
    SplitAtSlash(Str(z), Str(x) + "/" + (Str(y) + ".png"), Str(z'), Str(x') + "/" + (Str(y') + ".png"));
    StrInjective(z, z');
    SplitAtSlash(Str(x), Str(y) + ".png", Str(x'), Str(y') + ".png");
    StrInjective(x, x');
    var ys, ys' := Str(y) + ".png", Str(y') + ".png";
    assert Str(y) == ys[..|ys| - 4];
    assert Str(y') == ys'[..|ys'| - 4];
    StrInjective(y, y');
  }

  /** A lock file is never itself some tile's image file. */
  lemma LockPathIsNoTilePath(root: string, z: int, x: int, y: int, root': string, z': int, x': int, y': int)
    ensures LockPath(TilePath(root, z, x, y)) != TilePath(root', z', x', y')
  {
    TilePathLayout(root', z', x', y');
    var p := TilePath(root', z', x', y');
    var l := LockPath(TilePath(root, z, x, y));
    assert p[|p| - 1] == 'g';
    assert l[|l| - 1] == 'k';
  }
}
