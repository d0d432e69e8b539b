/**
 * The sprite choices of src/draw/setup.rs: which wire texture a `WireKind`
 * gets, which texture and health-bar colour a colony gets, and which sprite
 * sheet a drone gets. Keys are the texture names the game looks up.
 */
module DrawKeys {
  import opened Wrappers
  import opened Flags
  import opened Router

  /** A cardinal direction: any `Dir` but `Dir::None`. */
  predicate Cardinal(d: Dir) {
    d != NoDir
  }

  /** The name part of a cardinal direction in texture keys. */
  function Name(d: Dir): string
    requires Cardinal(d)
  {
    match d
    case North => "north"
    case South => "south"
    case East => "east"
    case West => "west"
  }

  /**
   * The texture key match of `wire`, arm by arm: a dangling wire per
   * direction, a wire between two different cardinals named north before
   * south before east before west, and "wire-all" for everything else.
   */
  function WireTexture(k: WireKind): (key: string)
    ensures |key| >= 8 && key[..5] == "wire-"
  {
    match k
    case Disconnect(North) => "wire-north"
    case Disconnect(East) => "wire-east"
    case Disconnect(South) => "wire-south"
    case Disconnect(West) => "wire-west"
    case Connect(North, South) => "wire-north-south"
    case Connect(North, East) => "wire-north-east"
    case Connect(North, West) => "wire-north-west"
    case Connect(South, North) => "wire-north-south"
    case Connect(South, East) => "wire-south-east"
    case Connect(South, West) => "wire-south-west"
    case Connect(East, North) => "wire-north-east"
    case Connect(East, South) => "wire-south-east"
    case Connect(East, West) => "wire-east-west"
    case Connect(West, North) => "wire-north-west"
    case Connect(West, East) => "wire-east-west"
    case Connect(West, South) => "wire-south-west"
    case _ => "wire-all"
  }

  /** The order texture keys name directions in. */
  function Rank(d: Dir): nat {
    match d
    case NoDir => 0
    case North => 1
    case South => 2
    case East => 3
    case West => 4
  }

  /**
   * `Connect(a, b)` and `Connect(b, a)` get the same texture. `Disconnect(None)`,
   * `Connect(d, d)` and any connection involving `None` get "wire-all".
   */
  lemma WireTextureSymmetric(a: Dir, b: Dir)
    ensures WireTexture(Connect(a, b)) == WireTexture(Connect(b, a))
    ensures WireTexture(Disconnect(NoDir)) == "wire-all"
    ensures !Cardinal(a) || !Cardinal(b) || a == b ==> WireTexture(Connect(a, b)) == "wire-all"
  {
  }

  /** A dangling wire on a cardinal is keyed by its name. */
  lemma DisconnectTexture(a: Dir)
    requires Cardinal(a)
    ensures WireTexture(Disconnect(a)) == "wire-" + Name(a)
  {
    match a
    case North => assert "wire-" + Name(a) == "wire-north";
    case South => assert "wire-" + Name(a) == "wire-south";
    case East => assert "wire-" + Name(a) == "wire-east";
    case West => assert "wire-" + Name(a) == "wire-west";
  }

  /**
   * A connection between two different cardinals is keyed by both names, in
   * north, south, east, west order.
   */
  lemma ConnectTexture(a: Dir, b: Dir)
    requires Cardinal(a) && Cardinal(b) && Rank(a) < Rank(b)
    ensures WireTexture(Connect(a, b)) == "wire-" + Name(a) + "-" + Name(b)
    ensures WireTexture(Connect(b, a)) == "wire-" + Name(a) + "-" + Name(b)
  {
    match (a, b)
    case (North, South) => assert "wire-" + Name(a) + "-" + Name(b) == "wire-north-south";
    case (North, East) => assert "wire-" + Name(a) + "-" + Name(b) == "wire-north-east";
    case (North, West) => assert "wire-" + Name(a) + "-" + Name(b) == "wire-north-west";
    case (South, East) => assert "wire-" + Name(a) + "-" + Name(b) == "wire-south-east";
    case (South, West) => assert "wire-" + Name(a) + "-" + Name(b) == "wire-south-west";
    case (East, West) => assert "wire-" + Name(a) + "-" + Name(b) == "wire-east-west";
  }

  /**
   * A wire laid by the route walk, between two different orthogonal
   * neighbours, never gets "wire-all".
   */
  lemma RouteWiresAreNamed(prev: Vectors.IVec2, pos: Vectors.IVec2, next: Vectors.IVec2)
    requires Vectors.Sub(pos, prev) in DIRS && Vectors.Sub(pos, next) in DIRS && prev != next
    ensures WireTexture(FromRoute(prev, pos, next)) != "wire-all"
  {
    RouteWireConnects(prev, pos, next);
    var k := FromRoute(prev, pos, next);
    if Rank(k.a) < Rank(k.b) {
      ConnectTexture(k.a, k.b);
    } else {
      ConnectTexture(k.b, k.a);
    }
  }

  /**
   * The sprite `wire` gives a wire this frame: none until its `Delay` has
   * finished (`delay` is whether it finished, or `None` when the wire has no
   * `Delay` at all), then the texture for its kind.
   */
  function WireSprite(k: WireKind, delay: Option<bool>): (r: Option<string>)
    ensures r.Some? <==> delay == Some(true)
  {
    match delay
    case Some(finished) => if finished then Some(WireTexture(k)) else None
    case None => None
  }

  /** An RGBA colour. */
  datatype Rgba = Rgba(r: real, g: real, b: real, a: real)

  /** What `colony` draws: a texture key and a health-bar colour, or a panic on any other flag. */
  datatype ColonyLook = ColonyLook(texture: string, colour: Rgba) | InvalidFlags

  /** The colony's texture and health-bar colour; the flag must be exactly one of the four colony words. */
  function ColonyLookOf(f: Flag): (r: ColonyLook)
    ensures r.ColonyLook? <==> f.quantity == 0 && (f.kind == COLONY_C || f.kind == COLONY_M || f.kind == COLONY_Y || f.kind == COLONY_ALL)
  {
    if f == Word(COLONY_C) then ColonyLook("colony_c", Rgba(0.12, 0.86, 0.63, 0.8))
    else if f == Word(COLONY_M) then ColonyLook("colony_m", Rgba(0.89, 0.24, 0.75, 0.8))
    else if f == Word(COLONY_Y) then ColonyLook("colony_y", Rgba(1.0, 0.74, 0.0, 0.8))
    else if f == Word(COLONY_ALL) then ColonyLook("colony", Rgba(0.9, 0.9, 0.9, 0.8))
    else InvalidFlags
  }

  /**
   * A colony is drawn exactly when its flag is one colony word with no
   * other bit and no count; the four words get four different textures.
   */
  lemma ColonyLookRules(f: Flag)
    ensures ColonyLookOf(f).ColonyLook? <==> f.quantity == 0 && f.kind in {COLONY_C, COLONY_M, COLONY_Y, COLONY_ALL}
    ensures ColonyLookOf(Word(COLONY_C)).texture != ColonyLookOf(Word(COLONY_M)).texture
    ensures ColonyLookOf(Word(COLONY_M)).texture != ColonyLookOf(Word(COLONY_Y)).texture
    ensures ColonyLookOf(Word(COLONY_C)).texture != ColonyLookOf(Word(COLONY_Y)).texture
  {
  }

  /** The drone sprite sheet for its colony bits, `None` where `hivemind` panics. */
  function DroneAtlas(f: Flag): (r: Option<string>)
    ensures r.None? <==> ColonyCount(f) == 0 || ColonyCount(f) == 2
  {
    var bits := f.kind & (COLONY_C | COLONY_M | COLONY_Y);
    if bits == COLONY_ALL then Some("bee_all")
    else if bits == COLONY_C then Some("bee_c")
    else if bits == COLONY_M then Some("bee_m")
    else if bits == COLONY_Y then Some("bee_y")
    else None
  }

  /** How many of the three colony bits a flag holds. */
  function ColonyCount(f: Flag): nat {
    (if f.kind & COLONY_C != 0 then 1 else 0) + (if f.kind & COLONY_M != 0 then 1 else 0) + (if f.kind & COLONY_Y != 0 then 1 else 0)
  }

  /**
   * A drone gets a sprite sheet when its flag holds one colony bit or all
   * three, whatever else it holds; with none or exactly two, drawing panics.
   */
  lemma DroneAtlasRules(f: Flag)
    ensures DroneAtlas(f).None? <==> ColonyCount(f) == 0 || ColonyCount(f) == 2
    ensures DroneAtlas(f).Some? ==> DroneAtlas(f) == DroneAtlas(Masked(f, Kinds(COLONY_ALL)))
  {
  }
}
