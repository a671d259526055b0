/** The application's bundled assets, as the renderers read them through
    `Context.Assets`. Opening a name that is not present raises an IOException. */
module Assets {

  /** A model after the OBJ reader and `ObjUtils.ConvertToRenderable`: single-indexed
      triangles with parallel position, texture-coordinate and normal arrays. */
  datatype Mesh = Mesh(
    indices: seq<int>,
    vertices: seq<real>,
    texCoords: seq<real>,
    normals: seq<real>)

  datatype Assets = Assets(
    text: map<string, seq<string>>,   // text assets, as the lines BufferedReader.ReadLine yields
    images: set<string>,              // decodable image assets
    meshes: map<string, Mesh>,        // OBJ assets, already made renderable
    includeDepth: nat)                // how deep #include may nest before the stack overflows
}
