# urdf-viz core, modelled in Dafny

urdf-viz shows a robot described by a URDF file and keeps each link's scene
node in the pose a kinematic solver computes. This project models the logic
of `src/lib.rs` that does not belong to the renderer:

- **Mesh path resolution** (`expand_package_path`), in module `PackagePath`.
  A `package://<pkg>/` reference gets the directory that `rospack find`
  reports for `<pkg>`. A `package://` name the pattern does not match is used
  as it is. A reference that does not start with `package://` is pushed onto
  the directory of the description file. The Rust `std::path` operations it relies on are in
  module `Paths`.
- **Choosing the description file** (`convert_xacro_if_needed_and_get_path`,
  `convert_xacro_to_urdf`), in module `Xacro`. A `.xacro` file is expanded
  to `/tmp/urdf_viz/<path>.urdf`. Any other file is used as it is. A path
  without an extension is an error.
- **Mesh conversion** (`convert_assimp_scene_to_kiss3d_meshes`), in module
  `MeshConversion`. Each sub-mesh gives one renderer mesh. Its vertices are
  copied in order, and only its three-index faces are kept, in order.
- **The scene registry** (`Viewer`), in module `SceneRegistry`. The class
  `Viewer` holds the name-to-node map `scenes` and the saved-colour map
  `originalColors`. Its methods `Setup`, `Update`, `AddAxisCylinders`,
  `SetTemporalColor` and `ResetTemporalColor` change those maps in place.
  Each method's new state is a pure function of its old state (`SetupScenes`,
  `ApplyTransforms`, `Highlight`, `ResetHighlight`). The lemmas prove what
  the viewer promises about those functions.

External programs and libraries are passed in as function parameters:

- `rospack find` is `locate: string -> Option<string>`;
- the xacro expansion is `convert`, or `createParentDir` and `run` when
  `convert_xacro_to_urdf` itself is modelled;
- building a link's geometry (`add_geometry`) is
  `addGeometry: (Visual, string) -> Option<Node>`;
- the solver's link transforms and link names are two sequences given to
  `Update`.

Behaviour worth knowing, as the code has it:

- `set_temporal_color` saves the node's colour on every call
  (src/lib.rs:290). After highlighting twice, a reset brings back the first
  highlight's colour, not the colour from before both
  (`SecondHighlightSavesFirst`).
- Only a node with an object of its own reports a colour. Mesh links and
  axis cylinders are groups, so highlighting them saves nothing. A reset
  then does not undo the highlight (`GroupHighlightSticks`).
- `setup` tolerates failures: a link whose geometry cannot be built is left
  out, and a later link with the same name overwrites an earlier one.
- A locator miss is a panic in the source. Here it is the error
  `PackageNotFound(pkg)`.

## Model

| member | source | states |
|---|---|---|
| `Paths.Push` | src/lib.rs:135-137 | `PathBuf::push`: an absolute name replaces the base; otherwise the result is the base followed by the name, with one separator between them exactly when the base is non-empty and does not already end with one |
| `Paths.Extension` | src/lib.rs:308 | `Path::extension`: an extension exists only for a path with a file name; it has no dot and no separator, and the file name ends with a dot and the extension |
| `Paths.ExtensionExists` | src/lib.rs:308 | a path has an extension exactly when it has a file name with a dot after its first character; `.xacro` has none (both directions) |
| `Paths.WithExtensionShape` | src/lib.rs:311 | `with_extension` keeps the input's directory: the stripped input is a directory `dir` followed by the file name, and the result is `dir`, the file stem, a dot and the extension |
| `Paths.WithExtension` | src/lib.rs:311 | `Path::with_extension`: a path without a file name is returned as it is; otherwise, for a non-empty extension, the result ends with a dot and the extension |
| `Paths.WithExtensionSwapsExtension` | src/lib.rs:311 | `with_extension("urdf")` gives a path whose extension is `urdf` and whose file stem is the input's |
| `PackagePath.WordPrefixLength` | src/lib.rs:128 | the greedy `\w+` consumes a maximal run of word characters: all consumed characters are word characters and the next one is not |
| `PackagePath.MatchPackageUri` | src/lib.rs:128 | a match of `^package://(\w+)/` captures a package name, and the name is the scheme, that package, a separator and the remaining text |
| `PackagePath.MatchPackageUriExact` | src/lib.rs:128-129 | `^package://(\w+)/` matches a name exactly when it is `package://<pkg>/<rest>` with `<pkg>` a package name; it then captures `<pkg>` and leaves `<rest>` (both directions) |
| `PackagePath.ExpandPackagePath` | src/lib.rs:126-139 | fails only for a `package://<pkg>/` name whose package the locator misses, naming that package; a name outside the package scheme always resolves, to a path ending with the name that starts with the base unless the name is absolute |
| `PackagePath.ExpandRelativeJoinsBase` | src/lib.rs:134-138 | a name outside the package scheme resolves to the base pushed with the name, and the result keeps the name's file name |
| `PackagePath.ExpandRelativeExample` | src/lib.rs:336-341 | base `/home/user` with `mesh/aaa.obj` resolves to `/home/user/mesh/aaa.obj` |
| `PackagePath.ExpandPackageUri` | src/lib.rs:127-133 | `package://<pkg>/<rest>` resolves to `D/<rest>` when the locator gives `D`, and fails with `PackageNotFound(<pkg>)` when it gives nothing, whatever the base |
| `PackagePath.ExpandUnmatchedPackageUnchanged` | src/lib.rs:127-133 | a `package://` name that is not `package://<pkg>/<rest>` is returned unchanged and not joined onto the base |
| `Xacro.XacroCommand` | src/lib.rs:92-98 | the command is `rosrun xacro xacro --inorder <input> -o <target>` |
| `Xacro.ConvertXacroToUrdf` | src/lib.rs:88-107 | succeeds exactly when the parent directory could be prepared and the xacro command exited successfully; a directory error is passed on as it is, a failed command gives `faild to xacro` |
| `Xacro.ConvertXacroIfNeededAndGetPath` | src/lib.rs:307-321 | no extension gives the error `failed to get extension`; a non-`xacro` extension gives the input unchanged; `xacro` gives the cached `urdf` path if the conversion of input to that path succeeds, and the conversion's error otherwise |
| `Xacro.CachedUrdfPath` | src/lib.rs:310-311 | the target of the expansion starts with `/tmp/urdf_viz/` and, when the input has a file name, ends with `.urdf` |
| `Xacro.CachedUrdfPathShape` | src/lib.rs:310-312 | the cached path of a `.xacro` file starts with `/tmp/urdf_viz/`, has extension `urdf` and keeps the file stem |
| `Xacro.CachedUrdfPathMirrorsInput` | src/lib.rs:310-311 | below `/tmp/urdf_viz/` the cached path mirrors the input: the input's directory, its file stem and `.urdf` |
| `Xacro.ResultIsNotXacro` | src/lib.rs:307-321 | every path the function returns has an extension other than `xacro` |
| `Xacro.XacroInputWithConverter` | src/lib.rs:307-314 | with `convert_xacro_to_urdf` plugged in, a `.xacro` input succeeds exactly when its cache directory is prepared and the xacro command for the cached path succeeds, and then yields that path |
| `MeshConversion.ConvertVertices` | src/lib.rs:64-66 | one point per vertex, in order, with the same coordinates |
| `MeshConversion.TriangleFaces` | src/lib.rs:67-73 | the `filter_map` over the faces keeps at most as many triangles as there are faces; what it keeps is `TriangleFacesAreFilteredFaces` |
| `MeshConversion.TriangleIndices` | src/lib.rs:67-73 | the positions of the three-index faces, strictly increasing, and every three-index face is among them |
| `MeshConversion.TriangleFacesAreFilteredFaces` | src/lib.rs:67-73 | the kept triangles are the three-index faces in input order: the k-th triangle is made of the indices of the k-th three-index face |
| `MeshConversion.TriangleFacesAppend` | src/lib.rs:67-73 | the face filter distributes over concatenation, so face order is kept |
| `MeshConversion.ThreeFourThreeExample` | src/lib.rs:67-73 | faces of sizes 3, 4, 3 give exactly two triangles, from the first and the third face |
| `MeshConversion.ConvertScene` | src/lib.rs:60-77 | one mesh per sub-mesh, each with the sub-mesh's vertices copied in order and its filtered faces |
| `SceneRegistry.ReportedColor` | src/lib.rs:281-284 | a node reports a colour exactly when it has an object of its own, and then reports its colour |
| `SceneRegistry.SetupScenesLookup` | src/lib.rs:217-223 | after `setup` a name maps to the node of the last link of that name that was built; other names keep their old entry |
| `SceneRegistry.LastBuiltNone` | src/lib.rs:217-223 | no node is registered for a name exactly when every link of that name failed to build (both directions) |
| `SceneRegistry.LastBuiltIsLatest` | src/lib.rs:217-223 | the registered node is that of the last successfully built link of the name: later duplicates overwrite, failed builds do not |
| `SceneRegistry.SetupScenesKeys` | src/lib.rs:217-223 | `setup` registers exactly the old names plus the names of the links that were built |
| `SceneRegistry.Zip` | src/lib.rs:248-252 | pairs transform i with name i for every i below the shorter length |
| `SceneRegistry.LatestTransform` | src/lib.rs:248-259 | a name gets no transform exactly when no pair names it |
| `SceneRegistry.LatestTransformIsLast` | src/lib.rs:248-259 | a pair that no later pair names again gives its name's transform |
| `SceneRegistry.ApplyTransformsKeys` | src/lib.rs:247-260 | `update` never adds or removes a registered name |
| `SceneRegistry.ApplyTransformsLookup` | src/lib.rs:247-260 | after `update` a registered node has the transform of the last pair naming it and is otherwise unchanged; an unpaired node is unchanged |
| `SceneRegistry.ApplyTransformsAtIndex` | src/lib.rs:247-260 | a registered node named by pair i and by no later pair ends `update` with transform i, and is otherwise unchanged |
| `SceneRegistry.ApplyTransformsIdempotent` | src/lib.rs:247-260 | applying the same frame twice gives the same scenes as applying it once |
| `SceneRegistry.HighlightFrame` | src/lib.rs:277-292 | `set_temporal_color` keeps the set of nodes and changes no other name's node or saved colour |
| `SceneRegistry.HighlightPresent` | src/lib.rs:277-292 | a highlighted node is the old node with the new colour, keeping its transform and whether it has an object; its previous colour is saved if it reported one, and otherwise the saved colours do not change |
| `SceneRegistry.HighlightAbsentNoop` | src/lib.rs:277-291 | `set_temporal_color` on a name without a node changes neither the scenes nor the saved colours |
| `SceneRegistry.HighlightThenResetRestores` | src/lib.rs:277-303 | highlighting an object node and resetting it gives back the scenes as they were |
| `SceneRegistry.SecondHighlightSavesFirst` | src/lib.rs:289-291 | after highlighting with c1 and then c2, a reset shows c1, because every call overwrites the saved colour |
| `SceneRegistry.ResetFrame` | src/lib.rs:293-303 | `reset_temporal_color` keeps the set of nodes and changes no other name's node |
| `SceneRegistry.ResetPresent` | src/lib.rs:293-303 | a reset of a name with a saved colour and a node gives that node the saved colour and changes nothing else about it |
| `SceneRegistry.ResetHighlightIdempotent` | src/lib.rs:293-303 | a reset keeps the saved colours, so a second reset changes nothing |
| `SceneRegistry.ResetHighlightNoop` | src/lib.rs:293-303 | a reset without a saved colour or without a node changes nothing |
| `SceneRegistry.GroupHighlightSticks` | src/lib.rs:281-290 | a group node with no saved colour keeps the highlight colour after a reset |
| `SceneRegistry.Viewer.constructor` | src/lib.rs:196-208 | a new viewer has no nodes and no saved colours |
| `SceneRegistry.Viewer.Setup` | src/lib.rs:209-224 | the new scenes are `SetupScenes` of the old ones and the robot's links; saved colours do not change |
| `SceneRegistry.Viewer.AddAxisCylinders` | src/lib.rs:225-243 | the axis group, a group without an object of its own as `add_group` makes it, is registered under the name, replacing any node there; nothing else changes |
| `SceneRegistry.Viewer.Update` | src/lib.rs:247-260 | the new scenes are `ApplyTransforms` of the old ones and the zipped pairs; the names and the saved colours do not change |
| `SceneRegistry.Viewer.SetTemporalColor` | src/lib.rs:277-292 | the new state of both maps is `Highlight` of the old state |
| `SceneRegistry.Viewer.ResetTemporalColor` | src/lib.rs:293-303 | the new state of both maps is `ResetHighlight` of the old state |

## Left out

- Rendering through kiss3d: the window, camera, light, background colour, `render`, `events` and `draw_text` with its font cache. These are renderer calls with no logic of their own.
- `load_mesh` (src/lib.rs:43-58): importer configuration and file reading are foreign I/O. Only the conversion of an already parsed scene is modelled.
- `add_geometry` (src/lib.rs:142-183): building primitives, the `path.exists()` check, mesh loading and colouring happen in the renderer and the file system. `Setup` takes the builder as a parameter `addGeometry`.
- `Viewer.Setup`: `add_geometry` resolves mesh names with `expand_package_path` (src/lib.rs:158), whose locator miss panics (src/lib.rs:132) and aborts `setup`. A builder returning `Option<Node>` cannot express that abort, so `Setup` always completes, and the `PackageNotFound` error of `ExpandPackagePath` is not connected to `setup`.
- `AddAxisCylinders`: the three cylinders, their colours, rotations and translations are floating-point renderer calls. The method takes the group the renderer built and models only the map insertion.
- `rospack_find` and running `rosrun`: both spawn processes. They are the parameters `locate` and `run`. Trimming of the locator's output, and the panic when a process cannot be started, belong to those parameters.
- `create_parent_dir`: a file-system operation, the parameter `createParentDir`. Logging of the xacro tool's error output is not modelled.
- `PackagePath.IsWordChar`: `\w` is restricted to ASCII letters, digits and `_`. Rust's `\w` also matches other Unicode word characters.
- `Paths.FileName`: `.` components are not normalised away, so `a/.` has no file name here while Rust gives `a`. Windows prefixes are not modelled; paths are Unix paths.
- Numbers: `f32` coordinates, colours and transforms are modelled as exact reals. They are only copied, never computed on. Face indices are unbounded naturals, not `u32`.
- Sharing of meshes through `Rc<RefCell<Mesh>>`, and the normals, UVs and dynamic-draw flag passed to `Mesh::new`, which are constants.
- Logging (`info!`, `error!`, `println!`) and the `Opt` command-line struct have no behaviour to model.
