# space_madness_404 simulation core, modelled in Dafny

This project models the parts of the game's simulation core that carry checkable
behaviour, and proves properties of them:

- **The tile map** (`tiles.dfy`, module `Tiles`). This is the grid of typed tiles from
  `src/tilemap.rs`, indexed `[x][y]`. It comes with the set of coordinates changed since
  the last flush (the dirty set) and the per-type image table. The flush copies each
  dirty tile's image into a texture and then empties the set. `TileMap` is a class
  whose `contents` and `updates` fields are updated in place, as in the source. The
  texture is a class that keeps a log of its partial updates (`Blit` records: pixel
  origin, size, image). An image is a token naming the asset path it was loaded from.
- **The key bindings** (`keys.dfy`, module `Keys`). This is the three-state edge
  detector `PressedState` (Off, JustPressed, Pressed) from `src/keybinds.rs`. It comes
  with the table `Keybinds` that maps each action to its keys and its state. Raw
  keyboard polling is an input: the set of keys held down this frame.
- **The fixed-timestep scheduler** (`application.dfy`, module `Application`). This is
  the accumulator of `src/app.rs`. Each frame adds `frame_time * 60` to it, runs
  `min(whole ticks, 5)` ticks, and keeps `accumulator % 1.0`. `App` is a class. The
  physics world is reduced to a counter of the steps it has taken.
- `wrappers.dfy` (module `Wrappers`) holds the `Option` type and the unit value.

What the code does is modelled as written, including where it departs from
what the code evidently intends:

- `check_fixed_tick` keeps only the fractional part of the accumulator. So when more
  than 5 whole ticks are owed, the ones beyond 5 are dropped, not carried to later
  frames (`ClampDropsBacklog`, `OneSecondStall`).
- `update_tile` checks bounds with `&&` (see Findings).
- `app.rs` in this revision has no pause or debug state, so neither is modelled.

## Model

| member | source | states |
|---|---|---|
| `Tiles.Discriminant` | src/tilemap.rs:112-120 | `tile_type as usize` is a valid position in `TYPES`, and `TYPES` holds that type there. So `TYPES` lists every tile type. |
| `Tiles.PathToImage` | src/tilemap.rs:122-127 | A tile type has no image path exactly when it is `Empty`. |
| `Tiles.Shape` | src/tilemap.rs:129-134 | A tile type has a collision shape exactly when it has an image, and that shape is `Box`. |
| `Tiles.LoadImages` | src/tilemap.rs:136-149 | The result has one entry per `TYPES` element, in enum order. Entry i is None exactly when the type has no path; otherwise it is the image loaded from that path. |
| `Tiles.LoadedImageOf` | src/tilemap.rs:114-149 | With the loaded table, looking up a type gives no image for `Empty` and the wall image for `Wall`. |
| `Tiles.EmptyGrid` | src/tilemap.rs:16-30 | `new(size)` builds `size.x` columns of `size.y` tiles. The cells are exactly the coordinates below `size`, all `Empty`. The grid is rectangular, and its size is `size` whenever `size.x > 0`. |
| `Tiles.Write` | src/tilemap.rs:65-66 | Overwriting one cell keeps the grid's shape and changes that cell only. |
| `Tiles.WriteKeepsShape` | src/tilemap.rs:65-66 | An overwrite keeps the grid rectangular and keeps the set of in-range coordinates the same. |
| `Tiles.UpdateTileAdmitsOffGrid` | src/tilemap.rs:73-81 | The as-written check of `update_tile` accepts `(0, height)`, which is not a cell. Once that coordinate is marked dirty, the dirty set no longer names only cells. |
| `Tiles.MarkDirtyRejectsExactlyOffGrid` | src/tilemap.rs:73-85 | The corrected check (`\|\|`) rejects exactly the coordinates that are not cells of a rectangular grid. |
| `Tiles.BlitCoversExactlyItsCell` | src/tilemap.rs:34-44 | The redraw of a cell covers exactly the texture pixels `(px, py)` with `px / 16 == x` and `py / 16 == y`: no pixel of another cell, and every pixel of its own. |
| `Tiles.BlitsOfDistinctCellsDisjoint` | src/tilemap.rs:34-44 | The redraws of two different cells share no pixel, so the unspecified order in which a flush visits the dirty set cannot change the texture. |
| `Tiles.BlitForInjective` | src/tilemap.rs:34-44 | Two different cells never produce the same redraw. |
| `Tiles.FlushStep` | src/tilemap.rs:32-51 | Flushing one more dirty cell adds exactly its own redraw if its tile has an image, and that redraw was not already made. |
| `Tiles.FlushLogStep` | src/tilemap.rs:32-51 | One iteration of the flush loop keeps the log of redraws equal, as a multiset, to the redraws owed for the cells handled so far. |
| `Tiles.FlushBlitsCount` | src/tilemap.rs:32-51 | A flush makes exactly as many redraws as there are dirty cells whose tile has an image. |
| `Tiles.FlushNothing` | src/tilemap.rs:32-51 | A flush with nothing dirty makes no redraw, so a second flush in a row is a no-op. |
| `Tiles.SetWallThenFlush` | src/tilemap.rs:32-71 | Setting an in-range cell to `Wall` and then flushing makes exactly one redraw: a 16x16 square of the wall image at `(x*16, y*16)`. |
| `Tiles.SetEmptyThenFlush` | src/tilemap.rs:32-71 | Setting an in-range cell to `Empty` and then flushing makes no redraw. |
| `Tiles.LoopIndices` | src/tilemap.rs:173-175 | `loop_indicies(n)` has n edges. Edge i starts at vertex i, each edge ends where the next one starts, the last edge returns to vertex 0, and every index names one of the n vertices: the edges close one loop over all vertices. |
| `Tiles.NextIndex` | src/tilemap.rs:174 | `(i + 1) % n` is `i + 1`, or 0 for the last index. |
| `Tiles.GetShape` | src/tilemap.rs:157-170 | The box outline has 4 vertices and 4 edges. Every edge index names a vertex, each edge ends where the next one starts, and the last edge returns to the first vertex. |
| `Tiles.Texture.UpdatePart` | src/tilemap.rs:38-44 | A partial texture update appends one record of the rectangle and the image to the texture's log. |
| `Tiles.TileMap.constructor` | src/tilemap.rs:16-30 | A new map has the empty grid of the given size, no dirty coordinate and the loaded image table. With at least one column, `size()` afterwards returns the requested size. |
| `Tiles.TileMap.Get` | src/tilemap.rs:53-57 | `get` returns None exactly when `x >= contents.len()` or `y >= contents[x].len()`. Otherwise it returns the stored tile. |
| `Tiles.TileMap.GetMut` | src/tilemap.rs:59-63 | `get_mut` succeeds on the same coordinates as `get`. A write through it changes exactly that cell. Off the grid it changes nothing. A write keeps the grid rectangular. |
| `Tiles.TileMap.Index` | src/tilemap.rs:88-94 | Indexing is `get(...).unwrap()`: it needs an in-range coordinate and returns what `get` returns. |
| `Tiles.TileMap.IndexMut` | src/tilemap.rs:96-100 | Mutable indexing needs an in-range coordinate and overwrites exactly that cell, keeping the grid rectangular. |
| `Tiles.TileMap.Set` | src/tilemap.rs:65-71 | In range, `set` overwrites only that cell, adds the coordinate to the dirty set and returns Some. Off the grid it returns None and changes neither the grid nor the dirty set. It keeps a dirty set that names only cells. |
| `Tiles.TileMap.Size` | src/tilemap.rs:83-85 | On a map with at least one column, `size().x` is the number of columns and, on a rectangular grid, `size().y` is the length of every column, so the size bounds exactly the in-range coordinates. |
| `Tiles.TileMap.UpdateTile` | src/tilemap.rs:73-81 | As written, `update_tile` returns None only when both `x >= size.x` and `y >= size.y`. Otherwise it adds the coordinate to the dirty set. It never changes the cells, so the grid stays rectangular. |
| `Tiles.TileMap.MarkDirty` | src/tilemap.rs:73-81 | With the corrected check, it returns None exactly off the grid. Otherwise it marks the cell dirty. It keeps a dirty set that names only cells. |
| `Tiles.TileMap.UpdateToTexture` | src/tilemap.rs:32-51 | It needs every dirty coordinate in range, since the lookup unwraps. Earlier log entries are kept. The new entries are, as a multiset, exactly one redraw per dirty cell whose tile has an image. Afterwards the dirty set is empty and the grid is unchanged. |
| `Keys.BindsEveryAction` | src/keybinds.rs:75-79 | Boost and Pause are the only actions, so a table that binds both binds every action. |
| `Keys.PressedState.IsJustPressed` | src/keybinds.rs:89-95 | True exactly for `JustPressed`, which counts as pressed. |
| `Keys.PressedState.IsPressed` | src/keybinds.rs:97-103 | True exactly for `JustPressed` and `Pressed`. |
| `Keys.PressedState.IsNotPressed` | src/keybinds.rs:105-107 | True exactly for `Off`, the negation of `is_pressed`. |
| `Keys.PressedState.Update` | src/keybinds.rs:109-115 | The next state is pressed exactly when the input is down. It is just pressed exactly when the input is down and the state was `Off`. So `update(s, false) == Off` and `update(Off, true) == JustPressed`. |
| `Keys.HeldJustPressedOnce` | src/keybinds.rs:109-115 | While a key is held, `JustPressed` is reported on the first update only, and only if the key was off before. From the second update on the state is `Pressed`. |
| `Keys.AnyDown` | src/keybinds.rs:16 | `any(is_key_down)` over a key list is true exactly when some key of the list is down. |
| `Keys.RefreshedKeepsBindings` | src/keybinds.rs:10-18 | One update keeps every action and every key list. Afterwards each action is pressed exactly when one of its keys is down, and just pressed exactly when it also was off. |
| `Keys.DefaultMap` | src/keybinds.rs:55-64 | The default table binds every action, all to `Off`: Boost to `[W, Up]` and Pause to `[Escape]`. |
| `Keys.Keybinds.constructor` | src/keybinds.rs:67-73 | `Keybinds::default()` holds the default table, so every lookup on it succeeds. |
| `Keys.Keybinds.Update` | src/keybinds.rs:10-18 | Each action's state is replaced by `state.update(any of its keys down)`. Key lists and the set of actions are unchanged. |
| `Keys.Keybinds.AddKey` | src/keybinds.rs:20-26 | The action must be bound, because `expect` panics otherwise. The key is appended to the end of that action's list. All states and all other actions' lists are unchanged. |
| `Keys.Keybinds.GetKeys` | src/keybinds.rs:28-49 | For a bound action, `get_keys` and `get` together return exactly the stored entry. |
| `Application.AsU32` | src/app.rs:51 | The cast `as u32` stays within u32, gives 0 for non-positive values, saturates to `u32::MAX` at or above it, and is the floor of any value in range. |
| `Application.RemOne` | src/app.rs:55 | `% 1.0` removes a whole number. For a non-negative value the result is its fractional part, in [0, 1). |
| `Application.Advance` | src/app.rs:48-56 | One call runs at most `MAX_TICKS_PER_FRAME = 5` ticks. For a non-negative total it runs `min(floor(acc + dt*60), 5)` ticks and leaves the fractional part of `acc + dt*60`, which lies in [0, 1). |
| `Application.UnclampedKeepsEveryTick` | src/app.rs:49-55 | Below the cap, the ticks run plus the new accumulator equal `acc + dt*60`. |
| `Application.ClampDropsBacklog` | src/app.rs:51-55 | Above the cap, exactly 5 ticks run and only the fractional part is kept. The `floor(acc + dt*60) - 5` ticks owed beyond the cap (at least one) are dropped. |
| `Application.OneSecondStall` | src/app.rs:48-56 | A 1-second frame from an empty accumulator runs 5 ticks and leaves 0. The other 55 ticks owed are dropped. |
| `Application.OneTickPerDeltaTime` | src/app.rs:16-56 | A frame lasting `FIXED_DELTA_TIME = 1/60` runs exactly one tick and leaves the accumulator as it was. |
| `Application.RunTicksBounded` | src/app.rs:48-56 | Over any n frames, at most 5n ticks run in all. Each single frame's cap of 5 is the first postcondition of `Application.Advance`. |
| `Application.NoTickLoss` | src/app.rs:48-56 | If no call in a sequence is clamped, the total ticks plus the final accumulator equal the initial accumulator plus the sum of `dt*60`. |
| `Application.RunCarryIsFraction` | src/app.rs:55 | With non-negative frame times, the accumulator stays in [0, 1) between frames. |
| `Application.WholeTicksAllRun` | src/app.rs:48-56 | Frame times adding up to exactly n tick periods, none of them clamped, run exactly n ticks from an empty accumulator and leave it at 0. |
| `Application.App.constructor` | src/app.rs:20-32 | `App::new` starts with accumulator 0, no objects, no physics steps and the default key bindings. |
| `Application.App.CheckFixedTick` | src/app.rs:48-56 | The accumulator becomes `Advance(acc, dt).carry`, and the physics world takes exactly `Advance(acc, dt).ticks` steps. |
| `Application.App.FixedTick` | src/app.rs:58-60 | A tick performs one physics step and nothing else. |

## Findings

| source | as written | input that shows it | evidently intended | confidence | as-written member | corrected member |
|---|---|---|---|---|---|---|
| src/tilemap.rs:74 | `update_tile` returns None only if `x >= size.x && y >= size.y` | On a 16x16 map, `update_tile((0, 16))` returns Some and marks `(0, 16)` dirty. The next `update_to_texture` then unwraps a failed lookup and panics. | Reject a coordinate that is out of range on either axis (`\|\|`). | high; not executed | `Tiles.UpdateTileAdmitsOffGrid` | `Tiles.TileMap.MarkDirty` |

## Left out

- `Tiles.TileMap.UpdateToTexture`: the order of the redraws is not stated, because the dirty set is a `HashSet` with unspecified iteration order. The log is compared as a multiset.
- `Tiles.TileMap.GetMut`: `get_mut` returns a mutable reference, which has no counterpart here. The model covers the one use callers make of it: overwriting the cell. Like `IndexMut`, such a write does not mark the cell dirty.
- Coordinates are unbounded naturals. The `u32` width of `UVec2`, the `as u32` casts in `size()`, the overflow of `x * 16`, and the `as i32` casts of the pixel origin are not modelled.
- `Texture2D::update_part` is reduced to a log entry. Its pixel effect, GPU upload and the image data are out of scope.
- `load_image` is assumed to succeed. Its `unwrap` panics at start-up on a missing asset, and this is not modelled. Images are tokens naming their path.
- `TileShape::get_shape` builds a rapier `Polyline`. Only its vertex list and edge indices are modelled.
- `KeyCode` keeps only the keys the default bindings name. Every other macroquad key is `Other(code)`.
- `Keybinds::get_keys_mut` and `get_keybinds` hand out references to the table. They are not modelled beyond `GetKeys`, `Get` and `AddKey`.
- `is_key_down` and `get_frame_time` are inputs (the set of keys down, the frame time).
- `f32` rounding and NaN are not modelled. Accumulator arithmetic is exact `real` arithmetic. The `as u32` cast and the `%` remainder follow Rust's definitions.
- The physics world is not part of this model. Each step is counted, not simulated.
- `App::frame_tick` and `update_camera` (clearing, camera zoom, material, drawing) are presentation only and are left out, as are `App`'s camera and material fields. Objects are reduced to their two physics handles.
- The entity/component dispatch (`src/component.rs`), object drawing and registration (`src/object.rs`), scene assembly (`src/main.rs`) and shaders (`src/graphics.rs`) are not part of this model. They are thin wrappers over rapier and macroquad, plus float steering math.
