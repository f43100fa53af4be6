/** The texture map kinds a game profile recognises; both profiles declare
    the same five. */
module TextureTypes {
  datatype TexMapType = Diffuse | Normal | SRO | MROH | MRO
}
