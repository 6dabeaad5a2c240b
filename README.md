# gostl in Dafny

This project models gostl, a small Go library for binary STL mesh files, and its
`invert` command. The model has four parts:

- `little_endian.dfy` (`LittleEndian`): `bytesFrom` and `uint32From`, the little-endian
  conversion between a 32-bit word and its four bytes. Both directions of the round trip
  are proved.
- `stl_model.dfy` (`StlModel`): the `Triangle` record (normal, P0, P1, P2) over a
  component type. The codec uses 32-bit float bit patterns; the geometry uses reals.
- `stl_codec.dfy` (`StlCodec`): the binary STL layout.
  - The format is specified twice, as the functions `Encode` and `Decode` on byte
    sequences.
  - It is also modelled as the source's imperative code: `WriteToFile`, `ParseStlFile`
    and `triangleFrom` are loops over buffers, each proved equal to those functions.
  - Lemmas fix the layout: header, count, record `k` at `84 + 50k`, float `i` of
    vector `j` at `12j + 4i`, attribute bytes zero.
  - Lemmas also prove the round trip `Decode(Encode(ts)) == Success(ts)`, and that
    decoding fails exactly on truncated files. Decoding ignores the header, the
    attribute bytes and trailing bytes.
- `stl_bounds.dfy` (`StlBounds`): `minimum`, `maximum` and `Model.BoundingBox`.
  - The box is proved to bound every vertex coordinate and to be attained on every
    axis.
  - It therefore depends only on the vertices, never on the normals.
- `invert_normals.dfy` (`InvertNormals`): `dot`, `cross`, `normalize` and the loop
  that recomputes the normal of triangle 0.

The normal rule follows the code. The candidate is `cross(P0, P1)`. When its dot
product with the stored normal is positive, it is replaced by `cross(P1, P0)`. So the
new direction never points into the stored normal's half-space: the command inverts
the normal. `InvertNormals.ExampleFlipsNormal` works one triangle through the rule. The
vectors crossed are the vertex positions P0 and P1 themselves, not two edges; the
model keeps this as the source has it.

## Model

| member | source | states |
|---|---|---|
| `LittleEndian.BytesFrom` | main.go:178-184 | returns the four bytes of `u`, least significant first: byte `i` is `(u / 256^i) mod 256` |
| `LittleEndian.Uint32From` | main.go:168-176 | for four bytes returns `b0 + 256*b1 + 256^2*b2 + 256^3*b3`; the source stops the process on any other length, so that is a precondition |
| `LittleEndian.Uint32OfBytesOf` | main.go:168-184 | `uint32From(bytesFrom(u)) == u` for every 32-bit word |
| `LittleEndian.BytesOfUint32Of` | main.go:168-184 | `bytesFrom(uint32From(bs)) == bs` for every four bytes |
| `LittleEndian.BytesOfInjective` | main.go:178-184 | two words have the same bytes if and only if they are equal |
| `StlCodec.HeaderLayout` | main.go:52-57 | the written header is 80 bytes: `"STL"` followed by 77 zero bytes |
| `StlCodec.EncodeRecordLayout` | main.go:76-105 | a record is 50 bytes; float `i` of vector `j` (normal, P0, P1, P2) is at bytes `12j + 4i .. +3`, little-endian; bytes 48 and 49 are zero |
| `StlCodec.DecodeEncodeRecord` | main.go:186-199 | `triangleFrom` applied to a written record gives back the same triangle |
| `StlCodec.RecordsLength` | main.go:77-112 | the records of `n` triangles take `50n` bytes |
| `StlCodec.BlocksLayout` | main.go:77-112 | when every element's block is 50 bytes, the `k`-th 50-byte slice of the concatenated blocks is the block of element `k` |
| `StlCodec.RecordsLayout` | main.go:77-112 | the `k`-th 50-byte slice of the records is the record of triangle `k`: order is kept |
| `StlCodec.EncodeLength` | main.go:43-116 | a written file is exactly `84 + 50N` bytes for `N` triangles |
| `StlCodec.EncodeHeaderAndCount` | main.go:52-73 | bytes 0..2 are `"STL"`, bytes 3..79 are zero, and bytes 80..83 hold the current number of triangles modulo 2^32 |
| `StlCodec.EncodeRecordSlice` | main.go:75-112 | bytes `84 + 50k .. +49` of a written file are the record of triangle `k` |
| `StlCodec.EncodeRecordAt` | main.go:75-112 | float `i` of vector `j` of triangle `k` is at byte `84 + 50k + 12j + 4i`, and bytes `84 + 50k + 48` and `+49` are zero |
| `StlCodec.DecodeEncode` | main.go:119-166 | parsing the bytes written for fewer than 2^32 triangles gives back exactly those triangles, in order |
| `StlCodec.DecodeFailsIffTruncated` | main.go:128-160 | parsing fails if and only if the file is shorter than 84 bytes or than `84 + 50N` for its declared count `N`; on success it returns exactly `N` triangles |
| `StlCodec.DecodeRecordIgnoresAttributes` | main.go:186-199 | two records that agree on their first 48 bytes decode to the same triangle |
| `StlCodec.DecodeReadsOnlyCountAndFloats` | main.go:128-165 | two files of the same length that agree on the count and on the float bytes of the declared records parse to the same result: the header and the attribute bytes are never read |
| `StlCodec.DecodeIgnoresTrailingBytes` | main.go:149-165 | bytes after the `N` declared records do not change a successful parse |
| `StlCodec.TriangleFrom` | main.go:186-199 | the nested loops build the triangle whose component `i` of vector `j` is the word at bytes `12j + 4i .. +3` of the record |
| `StlCodec.ParseStlFile` | main.go:119-166 | the read loop returns what `Decode` specifies: `EndOfFile` for a read that finds no byte left, and the short-header, short-count or short-triangle error for one that finds too few; otherwise the `N` records in file order |
| `StlCodec.ReadTriangle` | main.go:153-161 | one pass of the record loop decodes the 50 bytes at `84 + 50i` as record `i` |
| `StlCodec.ReadTriangles` | main.go:149-165 | succeeds if and only if the file holds all `N` records, and then returns records `0 .. N-1` in file order; otherwise it fails with `EndOfFile` when the file ends on a record boundary and with the short-triangle error when it ends inside a record |
| `StlCodec.DecodeComplete` | main.go:149-165 | a file that holds all `N` declared records parses to exactly those records |
| `StlCodec.PutVector` | main.go:78-104 | one inner vector loop writes the three little-endian floats of the vector at its 12-byte offset in the buffer and leaves every other buffer byte as it was |
| `StlCodec.PutTriangle` | main.go:78-105 | after the four vector loops, the 50-byte buffer holds the record of the triangle |
| `StlCodec.WriteHeader` | main.go:52-57 | the header buffer is 80 bytes: `"STL"` copied into a zeroed buffer |
| `StlCodec.WriteRecords` | main.go:75-112 | the triangle loop writes the records of the triangles in order; the one reused buffer keeps bytes 48 and 49 zero |
| `StlCodec.WriteToFile` | main.go:43-116 | the bytes written are the header, the count and one record per triangle, that is `Encode(ts)` |
| `StlBounds.Minimum` | main.go:201-209 | returns an element of the non-empty list that is at most every element |
| `StlBounds.Maximum` | main.go:211-219 | returns an element of the non-empty list that is at least every element |
| `StlBounds.AxisMinStep` | main.go:31-34 | folding a triangle into the running minimum of one axis gives the minimum over one more triangle |
| `StlBounds.AxisMaxStep` | main.go:35-37 | folding a triangle into the running maximum of one axis gives the maximum over one more triangle |
| `StlBounds.WidenAxis` | main.go:31-37 | the `minimum` and `maximum` calls for one axis turn the running minimum and maximum over `n` triangles into those over `n + 1`, each still attained by some vertex |
| `StlBounds.BoundingBox` | main.go:28-40 | for a model with at least one triangle, on every axis `min` is at most and `max` at least every P0, P1 and P2 coordinate, and each is the coordinate of some vertex |
| `StlBounds.BoundingBoxIgnoresNormals` | main.go:28-40 | two models with the same vertices have the same box whatever their normals, so the box is unique |
| `StlBounds.UnitTriangleBox` | main.go:28-40 | the triangle (0,0,0), (1,0,0), (0,1,0) has the box from (0,0,0) to (1,1,0) |
| `InvertNormals.Dot` | invert/invertNormals.go:52-54 | the dot product of a vector with itself, its squared length, is never negative |
| `InvertNormals.DotSymmetric` | invert/invertNormals.go:52-54 | `dot(a, b) == dot(b, a)` |
| `InvertNormals.DotScale` | invert/invertNormals.go:52-54 | scaling one argument of `dot` by `k` scales the product by `k` |
| `InvertNormals.DotNegate` | invert/invertNormals.go:52-54 | `dot(n, -a) == -dot(n, a)` |
| `InvertNormals.CrossAntisymmetric` | invert/invertNormals.go:56-62 | `cross(a, b) == -cross(b, a)` componentwise |
| `InvertNormals.Cross` | invert/invertNormals.go:56-62 | `cross(a, b)` is perpendicular to `a` and to `b` |
| `InvertNormals.CorrectedDirection` | invert/invertNormals.go:37-41 | the chosen direction is `cross(P0, P1)` or its negation, and its dot product with the stored normal is never positive |
| `InvertNormals.CorrectedDirectionSign` | invert/invertNormals.go:37-41 | the direction is `cross(P0, P1)` when `dot(normal, cross(P0, P1)) <= 0` and `-cross(P0, P1)` otherwise |
| `InvertNormals.CorrectedDirectionPerpendicular` | invert/invertNormals.go:37-41 | the chosen direction is perpendicular to the position vectors P0 and P1 |
| `InvertNormals.ExampleFlipsNormal` | invert/invertNormals.go:37-41 | normal (0,0,1), P0 (1,0,0), P1 (0,1,0) gives the direction (0,0,-1) |
| `InvertNormals.Reoriented` | invert/invertNormals.go:37-43 | the stored triangle keeps P0, P1 and P2, and with a non-negative normalizing factor its new normal has a non-positive dot product with the old one |
| `InvertNormals.Normalize` | invert/invertNormals.go:64-71 | every component is multiplied by the same factor, the reciprocal square root of `dot(a, a)` |
| `InvertNormals.ScaleUnitLength` | invert/invertNormals.go:64-71 | when that factor is exactly the reciprocal of the length, the result has unit length |
| `InvertNormals.InvertFirstNormal` | invert/invertNormals.go:33-44 | only the normal of triangle 0 changes, to the normalized corrected direction; every other triangle is unchanged, and an empty model is not touched |

## Left out

- File I/O: `os.Create`, `os.Open`, `Close` and the `filepath` field of `Model`.
  - A file is its byte sequence. `WriteToFile` returns the bytes, so the write errors and short-write checks of main.go:58-73 and 106-112 are not modelled.
  - `ParseStlFile` takes the bytes. Each `Read` is taken to return as many bytes as remain, up to the buffer size. `io.EOF` comes only when none remain.
  - A reader that returns fewer bytes than remain is not modelled.
- `StlCodec.WriteToFile`: the count is `len(m.Triangles)` converted to `uint32`. Go keeps the low 32 bits, and the model does the same (`CountOf`). So the round trip `DecodeEncode` holds only for fewer than 2^32 triangles.
- `LittleEndian.Uint32From` and `StlCodec.TriangleFrom`: the source calls `log.Fatalf` on a wrong length. That is a precondition here: process exit is not modelled, and every caller passes the right length.
- Float semantics:
  - `math.Float32bits` and `math.Float32frombits` are the identity on bit patterns, so the codec works on 32-bit words.
  - The geometry (`StlBounds`, `InvertNormals`) uses real numbers instead of float32. IEEE rounding, NaN, the infinities and signed zero are not modelled, and no link from bit patterns to reals is made.
  - So comparisons in `minimum` and `maximum` are a total order.
- `StlBounds.BoundingBox`: the source indexes `Triangles[0]` and panics on an empty model. That is the precondition `|ts| > 0`.
- `InvertNormals.Normalize`: `math.Sqrt` computed in float64, the cast to float32 and the reciprocal `1.0 / l` are one parameter function `rsqrt`.
  - Only the per-component scaling by `rsqrt(dot(a, a))` is proved.
  - Unit length is proved for the case where `rsqrt` returns the exact reciprocal length (`ScaleUnitLength`).
  - The zero vector, where Go produces Inf or NaN, is not modelled.
- `InvertNormals.Reoriented`: its half-space property is stated for a non-negative factor, since `rsqrt` is abstract.
- The command line of `invert`: flag parsing, usage, `os.Exit`, `log.Fatal` and the nil check (invert/invertNormals.go:14-31, 46-49). `InvertFirstNormal` works on the parsed triangles in place as an array.
