/** The scene registry of the viewer (`Viewer`): the map from link names to
    scene nodes that `setup` fills from the robot description, that `update`
    moves each frame, that `add_axis_cylinders` adds to, and the map of saved
    colours behind `set_temporal_color` / `reset_temporal_color`.

    The state changes are methods of the class `Viewer`; each is tied to a
    pure function of the old state, and the properties the viewer promises
    are lemmas about those functions. */
module SceneRegistry {
  import opened Wrappers

  datatype Vector3 = Vector3(x: real, y: real, z: real)
  datatype UnitQuaternion = UnitQuaternion(w: real, i: real, j: real, k: real)

  /** A rigid pose (`Isometry3<f32>`), as the kinematic solver computes it. */
  datatype Transform = Transform(rotation: UnitQuaternion, translation: Vector3)

  /** An RGB colour (`Point3<f32>`). */
  datatype Color = Color(r: real, g: real, b: real)

  /** A scene node as the registry sees it: its local transformation, the
      colour last applied to it (for a group, to every object below it) and
      whether the node carries an object of its own. Only a node with an
      object of its own reports a colour: a group (meshes, axis cylinders)
      does not. */
  datatype Node = Node(transform: Transform, color: Color, hasObject: bool)

  /** The geometry of a visual element of the robot description. */
  datatype Geometry =
    | Box(size: Vector3)
    | Cylinder(radius: real, length: real)
    | Sphere(radius: real)
    | MeshFile(filename: string, scale: Vector3)

  datatype Visual = Visual(geometry: Geometry, rgba: seq<real>)
  datatype Link = Link(name: string, visual: Visual)
  datatype Robot = Robot(name: string, links: seq<Link>)

  /** The colour `obj.data().object()` reports: that of the node's own object,
      if it has one. */
  function ReportedColor(node: Node): (c: Option<Color>)
    ensures c.Some? <==> node.hasObject
    ensures c.Some? ==> c.value == node.color
  {
    if node.hasObject then Some(node.color) else None
  }

  function Lookup<V>(m: map<string, V>, name: string): Option<V> {
    if name in m then Some(m[name]) else None
  }

  // ---------------------------------------------------------------------
  // setup

  /** One step of `setup`: insert the link's node when its geometry could be
      built, overwriting an earlier node of the same name. */
  function Register(scenes: map<string, Node>, link: Link, baseDir: string,
                    addGeometry: (Visual, string) -> Option<Node>): map<string, Node> {
    match addGeometry(link.visual, baseDir)
    case Some(node) => scenes[link.name := node]
    case None => scenes
  }

  /** The scenes after registering `links` in order. */
  function SetupScenes(scenes: map<string, Node>, links: seq<Link>, baseDir: string,
                       addGeometry: (Visual, string) -> Option<Node>): map<string, Node>
  {
    if links == [] then scenes
    else Register(SetupScenes(scenes, links[..|links| - 1], baseDir, addGeometry),
                  links[|links| - 1], baseDir, addGeometry)
  }

  /** The node built for the last link named `name` whose geometry could be
      built, if any: the reference description of what `setup` registers. */
  function LastBuilt(links: seq<Link>, baseDir: string, addGeometry: (Visual, string) -> Option<Node>,
                     name: string): Option<Node>
  {
    if links == [] then None
    else
      var link := links[|links| - 1];
      if link.name == name && addGeometry(link.visual, baseDir).Some? then addGeometry(link.visual, baseDir)
      else LastBuilt(links[..|links| - 1], baseDir, addGeometry, name)
  }

  /** After `setup` a name maps to the node of the last link of that name that
      was built; a name no built link has keeps what it had. */
  lemma {:induction false} SetupScenesLookup(scenes: map<string, Node>, links: seq<Link>, baseDir: string,
                                             addGeometry: (Visual, string) -> Option<Node>, name: string)
    ensures Lookup(SetupScenes(scenes, links, baseDir, addGeometry), name) ==
            match LastBuilt(links, baseDir, addGeometry, name)
            case Some(node) => Some(node)
            case None => Lookup(scenes, name)
  {
    if links != [] {
      SetupScenesLookup(scenes, links[..|links| - 1], baseDir, addGeometry, name);
    }
  }

  /** No node is registered under `name` exactly when every link of that name
      failed to build. */
  lemma {:induction false} LastBuiltNone(links: seq<Link>, baseDir: string,
                                         addGeometry: (Visual, string) -> Option<Node>, name: string)
    ensures LastBuilt(links, baseDir, addGeometry, name).None? <==>
            forall i :: 0 <= i < |links| && links[i].name == name ==> addGeometry(links[i].visual, baseDir).None?
  {
    if links != [] {
      var init := links[..|links| - 1];
      LastBuiltNone(init, baseDir, addGeometry, name);
      assert forall i :: 0 <= i < |init| ==> init[i] == links[i];
    }
  }

  /** A link that was built and that no later built link of the same name
      follows is the one whose node is registered: later duplicates overwrite
      earlier ones, and failed builds overwrite nothing. */
  lemma {:induction false} LastBuiltIsLatest(links: seq<Link>, baseDir: string,
                                             addGeometry: (Visual, string) -> Option<Node>, i: nat)
    requires i < |links| && addGeometry(links[i].visual, baseDir).Some?
    requires forall j :: i < j < |links| && links[j].name == links[i].name ==>
               addGeometry(links[j].visual, baseDir).None?
    ensures LastBuilt(links, baseDir, addGeometry, links[i].name) == addGeometry(links[i].visual, baseDir)
  {
    if i < |links| - 1 {
      var init := links[..|links| - 1];
      assert init[i] == links[i];
      LastBuiltIsLatest(init, baseDir, addGeometry, i);
    }
  }

  /** The names `setup` registers are the old ones and those of the links
      that were built. */
  lemma {:induction false} SetupScenesKeys(scenes: map<string, Node>, links: seq<Link>, baseDir: string,
                                           addGeometry: (Visual, string) -> Option<Node>)
    ensures SetupScenes(scenes, links, baseDir, addGeometry).Keys ==
            scenes.Keys + set l | l in links && addGeometry(l.visual, baseDir).Some? :: l.name
  {
    if links != [] {
      var init := links[..|links| - 1];
      SetupScenesKeys(scenes, init, baseDir, addGeometry);
      assert links == init + [links[|links| - 1]];
    }
  }

  // ---------------------------------------------------------------------
  // update

  /** The `(transform, name)` pairs of `transforms.iter().zip(names)`. */
  function Zip(transforms: seq<Transform>, names: seq<string>): (pairs: seq<(Transform, string)>)
    ensures |pairs| == if |transforms| < |names| then |transforms| else |names|
    ensures forall i :: 0 <= i < |pairs| ==> pairs[i] == (transforms[i], names[i])
  {
    var n := if |transforms| < |names| then |transforms| else |names|;
    seq(n, i requires 0 <= i < n => (transforms[i], names[i]))
  }

  /** One step of `update`: move the named node, or skip an unknown name. */
  function ApplyTransform(scenes: map<string, Node>, pair: (Transform, string)): map<string, Node> {
    var (transform, name) := pair;
    if name in scenes then scenes[name := scenes[name].(transform := transform)] else scenes
  }

  /** The scenes after applying `pairs` in order. */
  function ApplyTransforms(scenes: map<string, Node>, pairs: seq<(Transform, string)>): map<string, Node> {
    if pairs == [] then scenes
    else ApplyTransform(ApplyTransforms(scenes, pairs[..|pairs| - 1]), pairs[|pairs| - 1])
  }

  /** The transform of the last pair naming `name`, if any; which one it is
      when there is one is `LatestTransformIsLast`. */
  function LatestTransform(pairs: seq<(Transform, string)>, name: string): (t: Option<Transform>)
    ensures t.None? <==> forall i :: 0 <= i < |pairs| ==> pairs[i].1 != name
  {
    if pairs == [] then None
    else if pairs[|pairs| - 1].1 == name then Some(pairs[|pairs| - 1].0)
    else LatestTransform(pairs[..|pairs| - 1], name)
  }

  /** A pair that no later pair names again gives its name's transform. */
  lemma {:induction false} LatestTransformIsLast(pairs: seq<(Transform, string)>, i: nat)
    requires i < |pairs|
    requires forall j :: i < j < |pairs| ==> pairs[j].1 != pairs[i].1
    ensures LatestTransform(pairs, pairs[i].1) == Some(pairs[i].0)
  {
    if i < |pairs| - 1 {
      LatestTransformIsLast(pairs[..|pairs| - 1], i);
    }
  }

  /** `update` keeps the set of registered names. */
  lemma {:induction false} ApplyTransformsKeys(scenes: map<string, Node>, pairs: seq<(Transform, string)>)
    ensures ApplyTransforms(scenes, pairs).Keys == scenes.Keys
  {
    if pairs != [] {
      ApplyTransformsKeys(scenes, pairs[..|pairs| - 1]);
    }
  }

  /** After `update` a registered node carries the transform of the last pair
      naming it, and is otherwise as it was; names never paired keep their
      node unchanged. */
  lemma {:induction false} ApplyTransformsLookup(scenes: map<string, Node>, pairs: seq<(Transform, string)>,
                                                 name: string)
    requires name in scenes
    ensures name in ApplyTransforms(scenes, pairs)
    ensures ApplyTransforms(scenes, pairs)[name] ==
            match LatestTransform(pairs, name)
            case Some(t) => scenes[name].(transform := t)
            case None => scenes[name]
  {
    if pairs != [] {
      ApplyTransformsLookup(scenes, pairs[..|pairs| - 1], name);
      ApplyTransformsKeys(scenes, pairs[..|pairs| - 1]);
    }
  }

  /** Index by index: a registered node named by pair `i` and by no later
      pair ends up with pair `i`'s transform. */
  lemma ApplyTransformsAtIndex(scenes: map<string, Node>, pairs: seq<(Transform, string)>, i: nat)
    requires i < |pairs| && pairs[i].1 in scenes
    requires forall j :: i < j < |pairs| ==> pairs[j].1 != pairs[i].1
    ensures pairs[i].1 in ApplyTransforms(scenes, pairs)
    ensures ApplyTransforms(scenes, pairs)[pairs[i].1] == scenes[pairs[i].1].(transform := pairs[i].0)
  {
    LatestTransformIsLast(pairs, i);
    ApplyTransformsLookup(scenes, pairs, pairs[i].1);
  }

  /** Applying the same frame twice gives the same scene as applying it once. */
  lemma ApplyTransformsIdempotent(scenes: map<string, Node>, pairs: seq<(Transform, string)>)
    ensures ApplyTransforms(ApplyTransforms(scenes, pairs), pairs) == ApplyTransforms(scenes, pairs)
  {
    var once := ApplyTransforms(scenes, pairs);
    var twice := ApplyTransforms(once, pairs);
    ApplyTransformsKeys(scenes, pairs);
    ApplyTransformsKeys(once, pairs);
    forall name | name in twice ensures twice[name] == once[name] {
      ApplyTransformsLookup(scenes, pairs, name);
      ApplyTransformsLookup(once, pairs, name);
    }
  }

  // ---------------------------------------------------------------------
  // temporal colours

  /** Both maps of the registry. */
  datatype Registry = Registry(scenes: map<string, Node>, originalColors: map<string, Color>)

  /** `set_temporal_color(name, r, g, b)`: paint the named node; if it reports
      a colour, save that colour for `name`, replacing any saved before. An
      unknown name changes nothing. */
  function Highlight(reg: Registry, name: string, c: Color): Registry {
    if name in reg.scenes then
      var node := reg.scenes[name];
      Registry(reg.scenes[name := node.(color := c)],
               match ReportedColor(node)
               case Some(orig) => reg.originalColors[name := orig]
               case None => reg.originalColors)
    else reg
  }

  /** `reset_temporal_color(name)`: paint the named node with its saved
      colour, leaving the saved colour in place; nothing happens without a
      saved colour or a node. */
  function ResetHighlight(reg: Registry, name: string): Registry {
    if name in reg.originalColors && name in reg.scenes then
      reg.(scenes := reg.scenes[name := reg.scenes[name].(color := reg.originalColors[name])])
    else reg
  }

  /** Highlighting touches only the named entry of each map; it never adds or
      removes a node. */
  lemma HighlightFrame(reg: Registry, name: string, c: Color, other: string)
    requires other != name
    ensures Highlight(reg, name, c).scenes.Keys == reg.scenes.Keys
    ensures Lookup(Highlight(reg, name, c).scenes, other) == Lookup(reg.scenes, other)
    ensures Lookup(Highlight(reg, name, c).originalColors, other) == Lookup(reg.originalColors, other)
  {
  }

  /** A highlighted node shows the new colour and keeps its transform; the
      saved colour is the one it reported just before, if it reported one. */
  lemma HighlightPresent(reg: Registry, name: string, c: Color)
    requires name in reg.scenes
    ensures var after := Highlight(reg, name, c);
            && after.scenes[name] == reg.scenes[name].(color := c)
            && (reg.scenes[name].hasObject ==> after.originalColors[name] == reg.scenes[name].color)
            && (!reg.scenes[name].hasObject ==> after.originalColors == reg.originalColors)
  {
  }

  /** Highlighting a name without a node changes neither map. */
  lemma HighlightAbsentNoop(reg: Registry, name: string, c: Color)
    requires name !in reg.scenes
    ensures Highlight(reg, name, c) == reg
  {
  }

  /** Highlighting an object node and resetting it gives back the scene as it
      was before. */
  lemma HighlightThenResetRestores(reg: Registry, name: string, c: Color)
    requires name in reg.scenes && reg.scenes[name].hasObject
    ensures ResetHighlight(Highlight(reg, name, c), name).scenes == reg.scenes
  {
  }

  /** Every highlight overwrites the saved colour, so after two highlights a
      reset restores the colour shown between them (the first highlight's),
      not the one from before both. */
  lemma SecondHighlightSavesFirst(reg: Registry, name: string, c1: Color, c2: Color)
    requires name in reg.scenes && reg.scenes[name].hasObject
    ensures ResetHighlight(Highlight(Highlight(reg, name, c1), name, c2), name).scenes[name].color == c1
  {
  }

  /** A reset leaves the saved colour in place, so resetting twice is the
      same as resetting once. */
  lemma ResetHighlightIdempotent(reg: Registry, name: string)
    ensures ResetHighlight(ResetHighlight(reg, name), name) == ResetHighlight(reg, name)
    ensures ResetHighlight(reg, name).originalColors == reg.originalColors
  {
  }

  /** A reset touches only the named node; it never adds or removes a node. */
  lemma ResetFrame(reg: Registry, name: string, other: string)
    requires other != name
    ensures ResetHighlight(reg, name).scenes.Keys == reg.scenes.Keys
    ensures Lookup(ResetHighlight(reg, name).scenes, other) == Lookup(reg.scenes, other)
  {
  }

  /** A reset with a saved colour and a node paints the node with the saved
      colour and changes nothing else about it. */
  lemma ResetPresent(reg: Registry, name: string)
    requires name in reg.originalColors && name in reg.scenes
    ensures name in ResetHighlight(reg, name).scenes
    ensures ResetHighlight(reg, name).scenes[name] == reg.scenes[name].(color := reg.originalColors[name])
  {
  }

  /** A reset without a saved colour or without a node changes nothing. */
  lemma ResetHighlightNoop(reg: Registry, name: string)
    requires name !in reg.originalColors || name !in reg.scenes
    ensures ResetHighlight(reg, name) == reg
  {
  }

  /** A group node (a mesh or the axis cylinders) reports no colour, so
      nothing is saved when it is highlighted and a later reset does not
      undo the highlight unless an earlier colour was saved for the name. */
  lemma GroupHighlightSticks(reg: Registry, name: string, c: Color)
    requires name in reg.scenes && !reg.scenes[name].hasObject && name !in reg.originalColors
    ensures ResetHighlight(Highlight(reg, name, c), name).scenes[name].color == c
  {
  }

  // ---------------------------------------------------------------------
  // the viewer

  class Viewer {
    const urdfRobot: Robot
    var scenes: map<string, Node>
    var originalColors: map<string, Color>

    function State(): Registry
      reads this
    {
      Registry(scenes, originalColors)
    }

    /** `Viewer::new(urdf_robot)`: no node and no saved colour yet. */
    constructor (urdfRobot: Robot)
      ensures this.urdfRobot == urdfRobot
      ensures scenes == map[] && originalColors == map[]
    {
      this.urdfRobot := urdfRobot;
      scenes := map[];
      originalColors := map[];
    }

    /** `setup(base_dir)`: register every link of the robot whose geometry
        `addGeometry` can build. */
    method Setup(baseDir: string, addGeometry: (Visual, string) -> Option<Node>)
      modifies this
      ensures scenes == SetupScenes(old(scenes), urdfRobot.links, baseDir, addGeometry)
      ensures originalColors == old(originalColors)
    {
      var links := urdfRobot.links;
      var i := 0;
      while i < |links|
        invariant 0 <= i <= |links|
        invariant scenes == SetupScenes(old(scenes), links[..i], baseDir, addGeometry)
        invariant originalColors == old(originalColors)
      {
        assert links[..i + 1][..i] == links[..i];
        var l := links[i];
        match addGeometry(l.visual, baseDir) {
          case Some(geom) =>
            scenes := scenes[l.name := geom];
          case None =>
        }
        i := i + 1;
      }
      assert links[..i] == links;
    }

    /** `add_axis_cylinders(name, size)`: register the group of axis
        cylinders the renderer built, under `name`; like every group it has
        no object of its own. */
    method AddAxisCylinders(name: string, axisGroup: Node)
      requires !axisGroup.hasObject
      modifies this
      ensures scenes == old(scenes)[name := axisGroup]
      ensures originalColors == old(originalColors)
    {
      scenes := scenes[name := axisGroup];
    }

    /** `update(robot)`: give each registered node named in `linkNames` the
        transform at the same position in `transforms`. */
    method Update(transforms: seq<Transform>, linkNames: seq<string>)
      modifies this
      ensures scenes == ApplyTransforms(old(scenes), Zip(transforms, linkNames))
      ensures scenes.Keys == old(scenes).Keys
      ensures originalColors == old(originalColors)
    {
      var pairs := Zip(transforms, linkNames);
      for i := 0 to |pairs|
        invariant scenes == ApplyTransforms(old(scenes), pairs[..i])
        invariant originalColors == old(originalColors)
      {
        assert pairs[..i + 1][..i] == pairs[..i];
        var trans := transforms[i];
        var linkName := linkNames[i];
        if linkName in scenes {
          scenes := scenes[linkName := scenes[linkName].(transform := trans)];
        }
      }
      assert pairs[..|pairs|] == pairs;
      ApplyTransformsKeys(old(scenes), pairs);
    }

    /** `set_temporal_color(link_name, r, g, b)`. */
    method SetTemporalColor(linkName: string, r: real, g: real, b: real)
      modifies this
      ensures State() == Highlight(old(State()), linkName, Color(r, g, b))
    {
      var colorOpt: Option<Color> := None;
      if linkName in scenes {
        var obj := scenes[linkName];
        colorOpt := ReportedColor(obj);
        scenes := scenes[linkName := obj.(color := Color(r, g, b))];
      }
      if colorOpt.Some? {
        originalColors := originalColors[linkName := colorOpt.value];
      }
    }

    /** `reset_temporal_color(link_name)`. */
    method ResetTemporalColor(linkName: string)
      modifies this
      ensures State() == ResetHighlight(old(State()), linkName)
    {
      if linkName in originalColors {
        var originalColor := originalColors[linkName];
        if linkName in scenes {
          scenes := scenes[linkName := scenes[linkName].(color := originalColor)];
        }
      }
    }
  }
}
