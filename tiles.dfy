/**
 * The tile map of src/tilemap.rs: a grid of typed tiles indexed `[x][y]`,
 * the set of coordinates changed since the last flush ("dirty" set), the
 * per-type image table, and the flush that copies every dirty tile's image
 * into a texture.
 *
 * The texture is abstracted to the log of partial-update calls made on it
 * (`Texture.blits`); images are tokens naming the asset they came from.
 */
module Tiles {
  import opened Wrappers

  /** `Tile::SIZE_TEXELS`: a tile image is 8 texels wide. */
  const SIZE_TEXELS: nat := 8
  /** `Tile::SIZE_PIXELS`: a tile covers 16 pixels of the texture. */
  const SIZE_PIXELS: nat := SIZE_TEXELS * 2

  datatype TileType = Empty | Wall

  datatype Tile = Tile(tileType: TileType)

  datatype TileShape = Box

  /** A `UVec2` grid coordinate: column `x`, row `y`. */
  datatype Coord = Coord(x: nat, y: nat)

  /** A decoded image, identified by the asset path it was loaded from. */
  datatype Image = Image(path: string)

  /** One `Texture2D::update_part` call: the pixel rectangle and the image copied into it. */
  datatype Blit = Blit(x: int, y: int, width: int, height: int, image: Image)

  const WALL_PATH: string := "assets/wall.png"

  /** `TileType::TYPES`: every tile type, in declaration order. */
  const TYPES: seq<TileType> := [Empty, Wall]

  /** `tile_type as usize` on the `#[repr(usize)]` enum: the position of the type in TYPES. */
  function Discriminant(t: TileType): (i: nat)
    ensures i < |TYPES| && TYPES[i] == t
  {
    match t
    case Empty => 0
    case Wall => 1
  }

  /** `TileType::path_to_image`: only the empty tile has no image. */
  function PathToImage(t: TileType): (p: Option<string>)
    ensures p.None? <==> t == Empty
  {
    match t
    case Empty => None
    case Wall => Some(WALL_PATH)
  }

  /** `TileType::shape`: a tile type has a collision shape exactly when it has an image. */
  function Shape(t: TileType): (s: Option<TileShape>)
    ensures s.Some? <==> PathToImage(t).Some?
    ensures s.Some? ==> s.value == Box
  {
    match t
    case Empty => None
    case Wall => Some(Box)
  }

  /** `load_image(path)`, assumed to succeed: the image decoded from `path`. */
  function LoadImage(path: string): Image
  {
    Image(path)
  }

  /** What `load_images` promises: one entry per TYPES element, in order, loaded from its path if it has one. */
  ghost predicate LoadedFromPaths(images: seq<Option<Image>>)
  {
    && |images| == |TYPES|
    && (forall i :: 0 <= i < |TYPES| ==> (images[i].None? <==> PathToImage(TYPES[i]).None?))
    && (forall i :: 0 <= i < |TYPES| && images[i].Some? ==> images[i].value == LoadImage(PathToImage(TYPES[i]).value))
  }

  /** `TileType::load_images`: walks TYPES, pushing the loaded image or None. */
  method LoadImages() returns (images: seq<Option<Image>>)
    ensures LoadedFromPaths(images)
  {
    images := [];
    for i := 0 to |TYPES|
      invariant |images| == i
      invariant forall j :: 0 <= j < i ==> (images[j].None? <==> PathToImage(TYPES[j]).None?)
      invariant forall j :: 0 <= j < i && images[j].Some? ==> images[j].value == LoadImage(PathToImage(TYPES[j]).value)
    {
      var image: Option<Image>;
      match PathToImage(TYPES[i]) {
        case Some(path) => image := Some(LoadImage(path));
        case None => image := None;
      }
      images := images + [image];
    }
  }

  /** The image table lookup `tile_images[tile_type as usize]`. */
  function ImageOf(images: seq<Option<Image>>, t: TileType): Option<Image>
    requires |images| == |TYPES|
  {
    images[Discriminant(t)]
  }

  /** With a loaded table, walls are drawn with the wall image and empty tiles with nothing. */
  lemma LoadedImageOf(images: seq<Option<Image>>, t: TileType)
    requires LoadedFromPaths(images)
    ensures ImageOf(images, t) == if t == Empty then None else Some(Image(WALL_PATH))
  {
    var i := Discriminant(t);
    assert TYPES[i] == t;
  }

  // ---------------------------------------------------------------------
  // Grids as values

  /** Every column has the length of the first one. */
  ghost predicate Rectangular(grid: seq<seq<Tile>>)
  {
    forall i :: 0 <= i < |grid| ==> |grid[i]| == |grid[0]|
  }

  /** The checked lookup of `get`/`get_mut` succeeds. */
  predicate InRange(grid: seq<seq<Tile>>, c: Coord)
  {
    c.x < |grid| && c.y < |grid[c.x]|
  }

  /** Every coordinate of `dirty` names a cell of `grid`. */
  ghost predicate AllInRange(grid: seq<seq<Tile>>, dirty: set<Coord>)
  {
    forall c :: c in dirty ==> InRange(grid, c)
  }

  /** `size()`: the number of columns and the length of the first column. */
  function SizeOf(grid: seq<seq<Tile>>): Coord
    requires |grid| > 0
  {
    Coord(|grid|, |grid[0]|)
  }

  /** The grid `new(size)` builds: `size.x` columns of `size.y` empty tiles. */
  function EmptyGrid(size: Coord): (grid: seq<seq<Tile>>)
    ensures |grid| == size.x
    ensures forall c :: InRange(grid, c) <==> c.x < size.x && c.y < size.y
    ensures forall c :: InRange(grid, c) ==> grid[c.x][c.y] == Tile(Empty)
    ensures Rectangular(grid)
    ensures size.x > 0 ==> SizeOf(grid) == size
  {
    seq(size.x, _ => seq(size.y, _ => Tile(Empty)))
  }

  /** The grid after overwriting cell `c` with `t`. */
  function Write(grid: seq<seq<Tile>>, c: Coord, t: Tile): (r: seq<seq<Tile>>)
    requires InRange(grid, c)
    ensures |r| == |grid| && forall i :: 0 <= i < |grid| ==> |r[i]| == |grid[i]|
    ensures forall d :: InRange(grid, d) ==> r[d.x][d.y] == if d == c then t else grid[d.x][d.y]
  {
    grid[c.x := grid[c.x][c.y := t]]
  }

  lemma WriteKeepsShape(grid: seq<seq<Tile>>, c: Coord, t: Tile)
    requires InRange(grid, c)
    ensures Rectangular(grid) ==> Rectangular(Write(grid, c, t))
    ensures forall d :: InRange(Write(grid, c, t), d) <==> InRange(grid, d)
  {
  }

  // ---------------------------------------------------------------------
  // The two bounds checks for marking a cell dirty

  /** The rejection test of `update_tile` as written: out of range on BOTH axes. */
  predicate UpdateTileRejects(size: Coord, c: Coord)
  {
    c.x >= size.x && c.y >= size.y
  }

  /** The rejection test `update_tile` evidently intends: out of range on EITHER axis. */
  predicate MarkDirtyRejects(size: Coord, c: Coord)
  {
    c.x >= size.x || c.y >= size.y
  }

  /**
   * As written, `update_tile` accepts the coordinate one past the last row of
   * column 0, which is not a cell: after it is marked dirty, the dirty set no
   * longer names only cells, and the next flush would panic on the lookup.
   */
  lemma UpdateTileAdmitsOffGrid(grid: seq<seq<Tile>>, dirty: set<Coord>)
    requires |grid| > 0
    ensures var c := Coord(0, |grid[0]|);
      && !UpdateTileRejects(SizeOf(grid), c)
      && !InRange(grid, c)
      && !AllInRange(grid, dirty + {c})
  {
    var c := Coord(0, |grid[0]|);
    assert c in dirty + {c};
  }

  /** The corrected test rejects exactly the coordinates that are not cells. */
  lemma MarkDirtyRejectsExactlyOffGrid(grid: seq<seq<Tile>>, c: Coord)
    requires |grid| > 0 && Rectangular(grid)
    ensures MarkDirtyRejects(SizeOf(grid), c) <==> !InRange(grid, c)
  {
    if c.x < |grid| {
      assert |grid[c.x]| == |grid[0]|;
    }
  }

  // ---------------------------------------------------------------------
  // The flush, as a value

  /** The image drawn for cell `c`, if any. */
  function ImageAt(grid: seq<seq<Tile>>, images: seq<Option<Image>>, c: Coord): Option<Image>
    requires |images| == |TYPES| && InRange(grid, c)
  {
    ImageOf(images, grid[c.x][c.y].tileType)
  }

  /** The `update_part` call that redraws cell `c` with `image`: a 16x16 square at `c * 16`. */
  function BlitFor(c: Coord, image: Image): Blit
  {
    Blit(c.x * SIZE_PIXELS, c.y * SIZE_PIXELS, SIZE_PIXELS, SIZE_PIXELS, image)
  }

  /** Pixel `(px, py)` of the texture lies inside the rectangle of `b`. */
  predicate Covers(b: Blit, px: int, py: int)
  {
    b.x <= px < b.x + b.width && b.y <= py < b.y + b.height
  }

  /** Along one axis, the 16 pixels from `k * 16` on are exactly those whose cell index is `k`. */
  lemma AxisCell(k: nat, p: int)
    ensures k * SIZE_PIXELS <= p < k * SIZE_PIXELS + SIZE_PIXELS <==> p >= 0 && p / SIZE_PIXELS == k
  {
  }

  /**
   * The redraw of cell `c` covers exactly the texture pixels that belong to
   * `c`, the pixels `(px, py)` with `px / 16 == c.x` and `py / 16 == c.y`.
   */
  lemma BlitCoversExactlyItsCell(c: Coord, image: Image, px: int, py: int)
    ensures Covers(BlitFor(c, image), px, py)
        <==> px >= 0 && py >= 0 && px / SIZE_PIXELS == c.x && py / SIZE_PIXELS == c.y
  {
    AxisCell(c.x, px);
    AxisCell(c.y, py);
  }

  /** The redraws of two different cells touch no common pixel, so the order of a flush cannot matter. */
  lemma BlitsOfDistinctCellsDisjoint(c: Coord, d: Coord, i: Image, j: Image, px: int, py: int)
    requires c != d
    ensures !(Covers(BlitFor(c, i), px, py) && Covers(BlitFor(d, j), px, py))
  {
    BlitCoversExactlyItsCell(c, i, px, py);
    BlitCoversExactlyItsCell(d, j, px, py);
  }

  lemma BlitForInjective(c: Coord, d: Coord, i: Image, j: Image)
    ensures BlitFor(c, i) == BlitFor(d, j) ==> c == d && i == j
  {
  }

  /** The dirty cells that have an image to draw. */
  ghost function DrawnCells(grid: seq<seq<Tile>>, images: seq<Option<Image>>, dirty: set<Coord>): set<Coord>
    requires |images| == |TYPES| && AllInRange(grid, dirty)
  {
    set c | c in dirty && ImageAt(grid, images, c).Some?
  }

  /** The blits a flush of `dirty` makes, one for each dirty cell with an image. */
  ghost function FlushBlits(grid: seq<seq<Tile>>, images: seq<Option<Image>>, dirty: set<Coord>): set<Blit>
    requires |images| == |TYPES| && AllInRange(grid, dirty)
  {
    set c | c in dirty && ImageAt(grid, images, c).Some? :: BlitFor(c, ImageAt(grid, images, c).value)
  }

  /** Flushing one more cell adds its blit, if it has an image, and that blit is new. */
  lemma FlushStep(grid: seq<seq<Tile>>, images: seq<Option<Image>>, done: set<Coord>, c: Coord)
    requires |images| == |TYPES| && AllInRange(grid, done) && InRange(grid, c) && c !in done
    ensures AllInRange(grid, done + {c})
    ensures var img := ImageAt(grid, images, c);
      && (img.Some? ==> BlitFor(c, img.value) !in FlushBlits(grid, images, done))
      && FlushBlits(grid, images, done + {c})
         == FlushBlits(grid, images, done) + (if img.Some? then {BlitFor(c, img.value)} else {})
      && DrawnCells(grid, images, done + {c})
         == DrawnCells(grid, images, done) + (if img.Some? then {c} else {})
  {
    var img := ImageAt(grid, images, c);
    if img.Some? && BlitFor(c, img.value) in FlushBlits(grid, images, done) {
      var d :| d in done && ImageAt(grid, images, d).Some? && BlitFor(d, ImageAt(grid, images, d).value) == BlitFor(c, img.value);
      BlitForInjective(d, c, ImageAt(grid, images, d).value, img.value);
      assert false;
    }
  }

  /** A blit not yet made, logged once more, keeps the log and the blit set in step. */
  lemma AddNewBlit(log: seq<Blit>, made: set<Blit>, b: Blit)
    requires multiset(log) == multiset(made) && b !in made
    ensures multiset(log + [b]) == multiset(made + {b})
  {
    assert multiset(made + {b}) == multiset(made) + multiset{b};
  }

  lemma AppendToLog(before: seq<Blit>, drawn: seq<Blit>, b: Blit)
    ensures before + drawn + [b] == before + (drawn + [b])
  {
  }

  /** The flush loop's step: handling one more dirty cell keeps the blit log equal to the blits owed so far. */
  lemma FlushLogStep(grid: seq<seq<Tile>>, images: seq<Option<Image>>, done: set<Coord>, c: Coord, log: seq<Blit>)
    requires |images| == |TYPES| && AllInRange(grid, done) && InRange(grid, c) && c !in done
    requires multiset(log) == multiset(FlushBlits(grid, images, done))
    ensures AllInRange(grid, done + {c})
    ensures var img := ImageAt(grid, images, c);
      multiset(if img.Some? then log + [BlitFor(c, img.value)] else log)
      == multiset(FlushBlits(grid, images, done + {c}))
  {
    FlushStep(grid, images, done, c);
    var img := ImageAt(grid, images, c);
    if img.Some? {
      AddNewBlit(log, FlushBlits(grid, images, done), BlitFor(c, img.value));
    }
  }

  /** A flush makes exactly as many blits as there are dirty cells with an image. */
  lemma {:induction false} FlushBlitsCount(grid: seq<seq<Tile>>, images: seq<Option<Image>>, dirty: set<Coord>)
    requires |images| == |TYPES| && AllInRange(grid, dirty)
    ensures |FlushBlits(grid, images, dirty)| == |DrawnCells(grid, images, dirty)|
    decreases |dirty|
  {
    if dirty == {} {
      assert FlushBlits(grid, images, dirty) == {};
      assert DrawnCells(grid, images, dirty) == {};
    } else {
      var c :| c in dirty;
      var rest := dirty - {c};
      assert rest + {c} == dirty;
      FlushBlitsCount(grid, images, rest);
      FlushStep(grid, images, rest, c);
      var img := ImageAt(grid, images, c);
      if img.Some? {
        assert c !in DrawnCells(grid, images, rest);
        assert |FlushBlits(grid, images, dirty)| == |FlushBlits(grid, images, rest)| + 1;
        assert |DrawnCells(grid, images, dirty)| == |DrawnCells(grid, images, rest)| + 1;
      }
    }
  }

  /** With nothing dirty, a flush draws nothing: a second flush in a row is a no-op. */
  lemma FlushNothing(grid: seq<seq<Tile>>, images: seq<Option<Image>>)
    requires |images| == |TYPES|
    ensures FlushBlits(grid, images, {}) == {}
  {
  }

  /** Setting an in-range cell to a wall and flushing makes one 16x16 blit of the wall image at `c * 16`. */
  lemma SetWallThenFlush(grid: seq<seq<Tile>>, images: seq<Option<Image>>, c: Coord)
    requires LoadedFromPaths(images) && InRange(grid, c)
    ensures AllInRange(Write(grid, c, Tile(Wall)), {c})
    ensures FlushBlits(Write(grid, c, Tile(Wall)), images, {c})
            == {Blit(c.x * SIZE_PIXELS, c.y * SIZE_PIXELS, SIZE_PIXELS, SIZE_PIXELS, Image(WALL_PATH))}
  {
    var g := Write(grid, c, Tile(Wall));
    WriteKeepsShape(grid, c, Tile(Wall));
    LoadedImageOf(images, Wall);
    assert ImageAt(g, images, c) == Some(Image(WALL_PATH));
    FlushStep(g, images, {}, c);
    assert {} + {c} == {c};
  }

  /** Setting a cell to empty and flushing draws nothing: empty tiles have no image. */
  lemma SetEmptyThenFlush(grid: seq<seq<Tile>>, images: seq<Option<Image>>, c: Coord)
    requires LoadedFromPaths(images) && InRange(grid, c)
    ensures AllInRange(Write(grid, c, Tile(Empty)), {c})
    ensures FlushBlits(Write(grid, c, Tile(Empty)), images, {c}) == {}
  {
    var g := Write(grid, c, Tile(Empty));
    WriteKeepsShape(grid, c, Tile(Empty));
    LoadedImageOf(images, Empty);
    FlushStep(g, images, {}, c);
    assert {} + {c} == {c};
  }

  // ---------------------------------------------------------------------
  // `TileShape::get_shape`, down to its outline

  /** `(i + 1) % n` is the next index, wrapping to 0 after the last one. */
  lemma NextIndex(i: nat, n: nat)
    requires i < n
    ensures (i + 1) % n == if i + 1 < n then i + 1 else 0
  {
    if i + 1 == n {
      assert (i + 1) % n == n % n == 0;
    }
  }

  /**
   * `loop_indicies(n)`: the edges `[i, (i + 1) % n]` of a closed polygon over
   * n vertices. Edge i starts at vertex i, each edge ends where the next one
   * starts, the last edge returns to vertex 0, and every index names one of
   * the n vertices.
   */
  function LoopIndices(n: nat): (edges: seq<(nat, nat)>)
    ensures |edges| == n
    ensures forall i :: 0 <= i < n ==> edges[i].0 == i && edges[i].1 < n
    ensures forall i :: 0 <= i < n - 1 ==> edges[i].1 == edges[i + 1].0
    ensures n > 0 ==> edges[n - 1].1 == 0
  {
    var edges := seq(n, i requires 0 <= i < n => (i, (i + 1) % n));
    assert forall i :: 0 <= i < n ==> edges[i].1 == if i + 1 < n then i + 1 else 0 by {
      forall i | 0 <= i < n
        ensures edges[i].1 == if i + 1 < n then i + 1 else 0
      {
        NextIndex(i, n);
      }
    }
    edges
  }

  /** A polyline: vertices, and edges as pairs of vertex indices. */
  datatype Polyline = Polyline(vertices: seq<(real, real)>, indices: seq<(nat, nat)>)

  /** `TileShape::get_shape`: the unit square's corners joined in a closed loop. */
  function GetShape(s: TileShape): (p: Polyline)
    ensures |p.vertices| == 4 && |p.indices| == |p.vertices|
    ensures forall i :: 0 <= i < |p.indices| ==> p.indices[i].0 < |p.vertices| && p.indices[i].1 < |p.vertices|
    ensures forall i :: 0 <= i < |p.indices| - 1 ==> p.indices[i].1 == p.indices[i + 1].0
    ensures p.indices[|p.indices| - 1].1 == p.indices[0].0
  {
    match s
    case Box => Polyline([(0.0, 0.0), (1.0, 0.0), (1.0, 1.0), (0.0, 1.0)], LoopIndices(4))
  }

  // ---------------------------------------------------------------------
  // The texture and the tile map as objects

  /** The `Texture2D` a flush writes into, reduced to the log of its partial updates. */
  class Texture {
    var blits: seq<Blit>

    constructor ()
      ensures blits == []
    {
      blits := [];
    }

    /** `Texture2D::update_part`: copies `image` into the given pixel rectangle. */
    method UpdatePart(image: Image, x: int, y: int, width: int, height: int)
      modifies this
      ensures blits == old(blits) + [Blit(x, y, width, height, image)]
    {
      blits := blits + [Blit(x, y, width, height, image)];
    }
  }

  class TileMap {
    var contents: seq<seq<Tile>>
    var updates: set<Coord>
    var tileImages: seq<Option<Image>>

    /** The grid is rectangular and the image table is the one `load_images` builds. */
    ghost predicate Valid()
      reads this
    {
      Rectangular(contents) && LoadedFromPaths(tileImages)
    }

    /** Every dirty coordinate names a cell: what a flush needs to not panic. */
    ghost predicate DirtyInRange()
      reads this
    {
      AllInRange(contents, updates)
    }

    /** `TileMap::new(size)`: `size.x` columns of `size.y` empty tiles, nothing dirty. */
    constructor (size: Coord)
      ensures Valid() && DirtyInRange()
      ensures contents == EmptyGrid(size) && updates == {}
      ensures size.x > 0 ==> Size() == size
    {
      var images := LoadImages();
      contents := EmptyGrid(size);
      updates := {};
      tileImages := images;
    }

    /** `get`: the checked lookup `contents.get(x)?.get(y)?`. */
    function Get(c: Coord): (r: Option<Tile>)
      reads this
      ensures r.None? <==> c.x >= |contents| || c.y >= |contents[c.x]|
      ensures r.Some? ==> InRange(contents, c) && r.value == contents[c.x][c.y]
    {
      if c.x < |contents| then
        if c.y < |contents[c.x]| then Some(contents[c.x][c.y]) else None
      else None
    }

    /**
     * `get_mut`, together with the one thing callers do with the reference it
     * returns: overwrite the cell. Such a write does not mark the cell dirty.
     */
    method GetMut(c: Coord, tile: Tile) returns (r: Option<Unit>)
      modifies this`contents
      ensures r.Some? <==> InRange(old(contents), c)
      ensures r.Some? ==> contents == Write(old(contents), c, tile)
      ensures r.None? ==> contents == old(contents)
      ensures old(Valid()) ==> Valid()
    {
      if c.x < |contents| && c.y < |contents[c.x]| {
        WriteKeepsShape(contents, c, tile);
        contents := Write(contents, c, tile);
        r := Some(Unit);
      } else {
        r := None;
      }
    }

    /** `Index`: `get(index).unwrap()`, which panics off the grid. */
    function Index(c: Coord): (t: Tile)
      reads this
      requires InRange(contents, c)
      ensures Get(c) == Some(t)
    {
      contents[c.x][c.y]
    }

    /** `IndexMut`: `get_mut(index).unwrap()` followed by a write; the cell is not marked dirty. */
    method IndexMut(c: Coord, tile: Tile)
      requires InRange(contents, c)
      modifies this`contents
      ensures contents == Write(old(contents), c, tile)
      ensures old(Valid()) ==> Valid()
    {
      WriteKeepsShape(contents, c, tile);
      contents := Write(contents, c, tile);
    }

    /** `set`: overwrites a cell and marks it dirty; off the grid it changes nothing. */
    method Set(c: Coord, tile: Tile) returns (r: Option<Unit>)
      requires Valid()
      modifies this`contents, this`updates
      ensures Valid()
      ensures r.Some? <==> InRange(old(contents), c)
      ensures r.Some? ==> contents == Write(old(contents), c, tile) && updates == old(updates) + {c}
      ensures r.None? ==> contents == old(contents) && updates == old(updates)
      ensures old(DirtyInRange()) ==> DirtyInRange()
    {
      r := GetMut(c, tile);
      if r.None? {
        return;
      }
      WriteKeepsShape(old(contents), c, tile);
      updates := updates + {c};
    }

    /** `size()`: panics on a map with no columns. */
    function Size(): (s: Coord)
      reads this
      requires |contents| > 0
      ensures s.x == |contents|
      ensures Rectangular(contents) ==> forall i :: 0 <= i < |contents| ==> |contents[i]| == s.y
      ensures Rectangular(contents) ==> forall c :: InRange(contents, c) <==> c.x < s.x && c.y < s.y
    {
      SizeOf(contents)
    }

    /**
     * `update_tile` as written: marks `c` dirty without writing it, and
     * rejects `c` only when it is off the grid on both axes.
     */
    method UpdateTile(c: Coord) returns (r: Option<Unit>)
      requires |contents| > 0
      modifies this`updates
      ensures r.None? <==> UpdateTileRejects(SizeOf(contents), c)
      ensures updates == if r.None? then old(updates) else old(updates) + {c}
      ensures old(Valid()) ==> Valid()
    {
      if c.x >= Size().x && c.y >= Size().y {
        return None;
      }
      updates := updates + {c};
      r := Some(Unit);
    }

    /** `update_tile` with the bounds check it evidently intends: it only ever marks cells. */
    method MarkDirty(c: Coord) returns (r: Option<Unit>)
      requires Valid() && |contents| > 0
      modifies this`updates
      ensures r.None? <==> !InRange(contents, c)
      ensures updates == if r.None? then old(updates) else old(updates) + {c}
      ensures old(DirtyInRange()) ==> DirtyInRange()
    {
      MarkDirtyRejectsExactlyOffGrid(contents, c);
      if c.x >= Size().x || c.y >= Size().y {
        return None;
      }
      updates := updates + {c};
      r := Some(Unit);
    }

    /**
     * `update_to_texture`: one 16x16 partial update per dirty cell whose tile
     * has an image, in no particular order; then nothing is dirty.
     */
    method UpdateToTexture(texture: Texture)
      requires Valid() && DirtyInRange()
      modifies this`updates, texture
      ensures updates == {} && contents == old(contents) && Valid()
      ensures |texture.blits| >= |old(texture.blits)|
      ensures texture.blits[..|old(texture.blits)|] == old(texture.blits)
      ensures multiset(texture.blits[|old(texture.blits)|..])
              == multiset(FlushBlits(contents, tileImages, old(updates)))
    {
      var todo := updates;
      ghost var done: set<Coord> := {};
      ghost var drawn: seq<Blit> := [];
      ghost var before := texture.blits;
      while todo != {}
        invariant updates == old(updates)
        invariant todo + done == updates && todo !! done
        invariant AllInRange(contents, done)
        invariant texture.blits == before + drawn
        invariant multiset(drawn) == multiset(FlushBlits(contents, tileImages, done))
        decreases todo
      {
        var c :| c in todo;
        FlushLogStep(contents, tileImages, done, c, drawn);
        var translationX: int, translationY: int := c.x * SIZE_PIXELS, c.y * SIZE_PIXELS;
        match tileImages[Discriminant(Index(c).tileType)] {
          case Some(image) =>
            var blit := BlitFor(c, image);
            assert blit == Blit(translationX, translationY, SIZE_PIXELS, SIZE_PIXELS, image);
            texture.UpdatePart(image, translationX, translationY, SIZE_PIXELS, SIZE_PIXELS);
            AppendToLog(before, drawn, blit);
            drawn := drawn + [blit];
          case None =>
        }
        todo := todo - {c};
        done := done + {c};
      }
      assert done == updates;
      assert before == old(texture.blits);
      assert texture.blits[|before|..] == drawn;
      assert texture.blits[..|before|] == before;
      updates := {};
    }
  }

  /** A 16x16 map, a wall set at (1, 1), and two flushes in a row. */
  method SingleWallScenario()
  {
    var tiles := new TileMap(Coord(16, 16));
    var texture := new Texture();
    var r := tiles.Set(Coord(1, 1), Tile(Wall));
    assert r.Some?;
    assert tiles.updates == {Coord(1, 1)};
    SetWallThenFlush(EmptyGrid(Coord(16, 16)), tiles.tileImages, Coord(1, 1));
    tiles.UpdateToTexture(texture);
    assert multiset(texture.blits) == multiset{Blit(16, 16, 16, 16, Image(WALL_PATH))};
    assert |texture.blits| == 1 && texture.blits[0] == Blit(16, 16, 16, 16, Image(WALL_PATH));
    assert tiles.updates == {};
    FlushNothing(tiles.contents, tiles.tileImages);
    tiles.UpdateToTexture(texture);
    assert |multiset(texture.blits[1..])| == 0;
    assert |texture.blits| == 1;
  }
}
