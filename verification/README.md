# Verified models of the bundled geometry and I/O code

This project models the algorithms of the bundled G3D library (`dep/g3dlite`) and of two converters (`contrib`) that
carry the most state, and proves what they promise. `dafny verify dfyconfig.toml` checks all of it.

- **Linear algebra.** `GaussJordan` inverts a matrix in place with full pivoting; `LinearAlgebra` says what an inverse is.
- **Meshes.** `MeshTopology` says what it means for faces, edges and vertices to agree; `MeshEdgeTables`,
  `MeshAdjacency`, `MeshWelding` and `MeshWeldAdjacency` build and re-pair them; `MeshPairing` has the building steps as
  functions; `MeshTheorems` draws the conclusions.
  `VertexWelder` merges vertices that lie close together with the help of a grid.
- **Polygons and boxes.** `ConvexPolygons` cuts a polygon by a plane; `ConvexPolygonTheorems` and `ConvexPolygonShape`
  say what the cut keeps. `AABoxes` culls boxes and hands masks down a hierarchy.
- **Digests.** `Rfc1321` is the standard's definition of MD5, and `Rfc1321TestSuite` computes messages of the standard's
  test suite with it step by step; `Md5Process` and `Md5` are the streaming code.
- **Streams.** `BinaryOutputs` and `BinaryInputs` are buffered streams over a file; `BitStrings` and `ByteStreams` hold
  what bits and bytes mean; `StreamRoundTrip` connects the two.
- **Values as text.** `AnyParser` defines the parser on tokens, `AnyPrinter` the tokens that are printed, `AnyText` how
  comments and strings become characters and are scanned back; `AnyStreams` moves along the tokens. `AnyRoundTrip` says
  for exactly which values the parser undoes the printer; `AnyTables` and `AnyForms` say what is read of text that was
  written by hand.
- **Conditions.** `Conditions`, `ConditionConverter` and `ConditionPasses` turn table rows into entries of one shared list;
  `ConditionSteps` has the steps as functions.
- **Images and terrain.** `TgaFormat` and `TgaCodec` are the TGA reader and writer, `TgaPlaces` says byte by byte where the
  pixels of an image lie in its file, `TgaPackets` has run-length files as lists of packets, and `TgaRunLength32` what the
  reader makes of those with 32 bits; `TerrainHeights` merges and packs the height grids of a map tile.
- **Examples.** `MatrixExample`, `MeshExample`, `MeshWeldExample`, `WelderExample`, `AABoxExample`, `StreamExamples`,
  `AnyExamples`, `ConditionExample`, `TgaExamples` and `TerrainExample` call the operations on concrete inputs and state
  what comes out as literals, so that no definition shared by a method and its specification goes unchecked.

`Integers`, `Options`, `Results` and `Squares` hold small definitions that several of these share.

Floating-point numbers are reals. Machine integers are integers; where the width matters (the MD5 counter, the size
argument of `Crypto::md5` and the sums made with it, the 16-bit fields of a TGA header) it is written out. Code that changes fields or arrays in
place is modelled by classes and methods that do so, each proved against a specification function or predicate.
A list that the original rescans while removing from it is a local value here, with the same steps.

What stands for the surroundings: face normals and other results of square roots are arguments; which memory allocations
succeed is any function of their number; the file on disk is a byte sequence; the lexer of the text format is any function
from a bare word to tokens; the rows a query selects are a function of database and table.

## Where code and documentation differ

The models follow the code.

- `MeshAlg::weldAdjacency` announces the first occurrence of a vertex as its canonical one
  (`dep/g3dlite/MeshAlgAdjacency.cpp:628`); the two-pass weld yields the last old vertex sent to the same new one
  (`MeshWeldAdjacency.CanonicalOfTwins` has an example).
- The welder lists each new vertex in its own grid cell and in those of its displacements by the radius. A radius that
  spans more than one cell leaves cells out in between, so a vertex close by is not always found
  (`WelderExample.WeldFive` keeps two vertices closer together than the radius).
- `G3D/MeshAlg.h:62-64` says that every edge listed at a vertex starts there, whatever its sign; edges listed as `~e`
  end there.
- The header promises edges in counter-clockwise order for every face. Every face has such an order, but where exactly two
  corners are equal the ordering step may leave the last two references as they are although exchanging them would give it:
  so it does for the triangle 1 1 0 (`MeshTheorems.DegenerateFaceWithoutCycle`). All other faces, those with three equal
  corners included, come out in order.
- `ConvexPolygon::cut` documents `newEdge` as an edge of the upper part; from start to stop it is an edge of the lower
  part.
- `BinaryOutput::setLength` reserves from the position instead of from the end and does not shrink; bytes that it or
  `skip` adds are not zeroed; and `setPosition` past the end goes too far when it makes the buffer spill
  (`BinaryOutputs.SetLengthFallsShort` and `BinaryOutputs.SetPositionGoesTooFar` have examples).
- Before a dump goes on, what is kept is moved to the front of the buffer by `System::memcpy`, which is `memcpy` on all
  but one platform. With 15 * 2^20 - 1 to 20 * 2^20 - 1 bytes in the buffer the two ranges overlap, which the C standard
  leaves undefined (`BinaryOutputs.OverlapsExactly`; `BinaryOutputs.DumpOverlaps` has an example).
- `BinaryOutput::commit` is documented as repeatable; a second call fails its assertion and would append the buffer once
  more (`BinaryOutputs.CommitTwice`).
- `BinaryInput::readString` searches for the null in the buffer only, and reads behind it when the window ends first
  (`BinaryInputs.StringPastTheWindow` has an example: a large file that starts with a string of 50,000,000 bytes).
- `Crypto::md5` takes a `size_t` but hashes the size's value as a signed 32-bit int.
- `md5_append` adds the number of buffered bytes to the size of the new piece in a signed int. Behind a partial block a
  piece just short of 2^31 bytes makes the sum overflow, and the piece is copied past the buffer (`Md5.OneByteFirst` has an
  example).
- An `Any` is meant to be read back from what is printed. A table whose name needs quotes comes back as a string or makes
  reading fail, and so does a key that the lexer does not read as one symbol; a comment with an end mark in it and a string
  with a quotation mark in it end early; and a comment of several lines within a table or an array comes back with its later
  lines indented (`AnyRoundTrip.TwoLinesNested` has an example; `AnyRoundTrip.ReadBackExactly` has all cases).
- The decoder accepts 32-bit run-length images but places their pixels three bytes apart; no such image of positive size
  is determined by its file (`TgaRunLength32.DeterminedExactly`).

## Model

| member | source | states |
|---|---|---|
| GaussJordan.InverseInPlaceGaussJordan | dep/g3dlite/Matrix.cpp:1351-1458 | For every n x n matrix of reals: the call succeeds exactly when the matrix has an inverse, and then leaves a matrix whose product with the original is the identity on both sides |
| GaussJordan.FindPivot | dep/g3dlite/Matrix.cpp:1383-1405 | The chosen pivot has the largest magnitude in the rows and columns not pivoted yet; a zero result means that whole block is zero |
| GaussJordan.EliminateColumn | dep/g3dlite/Matrix.cpp:1380-1447 | One column step keeps the array equivalent, in both directions, to the matrix it stands for, and marks a row and column not marked before |
| GaussJordan.Eliminate | dep/g3dlite/Matrix.cpp:1360-1447 | All columns done, or a proof that the matrix is singular; the recorded columns are all different |
| GaussJordan.ExchangeBalance | dep/g3dlite/Matrix.cpp:1422-1447 | Scaling the pivot row and reducing the others exchanges one free and one bound variable: a vector pair satisfies the system before exactly when the exchanged pair satisfies it after |
| GaussJordan.SwapKeepsTableau | dep/g3dlite/Matrix.cpp:1408-1415 | Swapping two rows that are no pivots yet swaps the rows of the matrix represented and nothing else |
| GaussJordan.NoPivotMeansKernel | dep/g3dlite/Matrix.cpp:1420-1422 | If no entry that could still be a pivot is non-zero, some non-zero vector is mapped to zero, so the failed assertion about a singular matrix is never a false alarm |
| GaussJordan.ColumnsUndoRows | dep/g3dlite/Matrix.cpp:1450-1457 | Swapping two rows of a matrix is undone by swapping the same columns of its inverse |
| GaussJordan.UnscrambleColumns | dep/g3dlite/Matrix.cpp:1450-1457 | The backward column swaps turn the inverse of the row-swapped matrix into the inverse of the original |
| LinearAlgebra.KernelMeansSingular | dep/g3dlite/Matrix.cpp:1422 | A matrix with a non-zero vector in its kernel has no inverse |
| MatrixExample.InvertMatrix | dep/g3dlite/Matrix.cpp:1351-1458 | A matrix of integers and the entries of its inverse |
| MeshEdgeTables.MeshEdgeTable.Insert | dep/g3dlite/MeshAlgAdjacency.cpp:67-81 | Adds one directed side under its lower vertex and changes no other entry |
| MeshEdgeTables.Iterator.Advance | dep/g3dlite/MeshAlgAdjacency.cpp:83-138 | Moves to the next non-empty entry, so that a full pass meets every pending side exactly once |
| MeshAdjacency.Mesh.AssignEdgeIndex | dep/g3dlite/MeshAlgAdjacency.cpp:151-160 | Fills the first free slot of a face; the loop never runs out of slots |
| MeshTopology.PendingMeansFreeSlot | dep/g3dlite/MeshAlgAdjacency.cpp:151-160 | A face that still has a pending side has a free slot, which is why assignEdgeIndex cannot overrun a face |
| MeshAdjacency.FindMate | dep/g3dlite/MeshAlgAdjacency.cpp:278-305 | The oppositely directed entry of the list, be it of another face or of the same one, whose normal is closest, the last such on ties; none exactly when all entries point the same way |
| MeshAdjacency.Mesh.PairEdges | dep/g3dlite/MeshAlgAdjacency.cpp:251-347 | The greedy pairing loses and invents no side, and leaves no two open edges that could still be joined |
| MeshAdjacency.Mesh.MoveBoundaryLast | dep/g3dlite/MeshAlgAdjacency.cpp:349-372 | The two-ended copy is a permutation that keeps interior edges first and reverses the boundary edges at the end |
| MeshAdjacency.Mesh.ComputeAdjacency | dep/g3dlite/MeshAlgAdjacency.cpp:188-422 | For every triangle list with corners in range: exactly the faces and edges of the building steps as functions, which link up completely with the vertices; every face refers to exactly its three sides with the right signs, faces but those with exactly two equal corners run head to tail, the sides are those of the list, boundary edges come last, and no two boundary edges could be joined |
| MeshTheorems.AdjacencyIsConsistent | dep/g3dlite/MeshAlgAdjacency.cpp:688-743 | Every assertion of debugCheckConsistency holds of the computed adjacency |
| MeshTheorems.AdjacencyVertexLists | dep/g3dlite/MeshAlgAdjacency.cpp:416-421 | Each vertex lists exactly its edges, outgoing ones with e and incoming ones with ~e, and exactly its faces |
| MeshTheorems.EdgesPerVertexPair | dep/g3dlite/MeshAlgAdjacency.cpp:254-345 | With p sides one way and q the other between two vertices, exactly max(p, q) edges result, |p - q| of them boundary |
| MeshTheorems.SidesPerFace | dep/g3dlite/MeshAlgAdjacency.cpp:254-388 | 3 F = 2 interior edges + boundary edges |
| MeshTheorems.OrderedCycleExactly | dep/g3dlite/MeshAlgAdjacency.cpp:390-414 | The ordering step gives a directed cycle for every face except, exactly, those whose second reference goes back along the first and whose third is a loop |
| MeshTheorems.ExchangedRunsAround | dep/g3dlite/MeshAlgAdjacency.cpp:395-414 | The exceptions are left as they are, and exchanging their last two references would have made cycles of them |
| MeshAdjacency.OrderedRunsAround | dep/g3dlite/MeshAlgAdjacency.cpp:390-414 | A face that has not exactly two equal corners is such a cycle after the ordering step, three equal corners included |
| MeshTheorems.DegenerateFaceWithoutCycle | dep/g3dlite/MeshAlgAdjacency.cpp:188-414 | The list 1 1 0 gives, by the building steps and whatever the normal, one face with the references 0, ~0, ~1, which do not run around |
| MeshTheorems.DegenerateRun | dep/g3dlite/MeshAlgAdjacency.cpp:188-422 | A run of computeAdjacency on that list ends with a face that does not run around |
| MeshExample.BuildMesh | dep/g3dlite/MeshAlgAdjacency.cpp:188-422 | Three triangles at one edge, one of them turned over: every face, edge and vertex of the adjacency |
| MeshWelding.Compare | dep/g3dlite/MeshAlgAdjacency.cpp:481-526 | Decides exactly, over all four orientations, whether two boundary edges are the two sides of one edge, and whether the second runs the other way |
| MeshWelding.FindPartner | dep/g3dlite/MeshAlgAdjacency.cpp:477-526 | The first later candidate that matches, and none exactly when no later one does |
| MeshWelding.PairBucket | dep/g3dlite/MeshAlgAdjacency.cpp:470-570 | Despite the list being reordered while it is scanned, what is left in a bucket contains no two edges that match |
| MeshWelding.WeldBoundaryEdges | dep/g3dlite/MeshAlgAdjacency.cpp:425-615 | Keeps all links with the right signs, conserves the multiset of half-edges, keeps what each face runs along, puts boundary edges last, and leaves no two of them that could be joined |
| MeshWeldAdjacency.Canonical | dep/g3dlite/MeshAlgAdjacency.cpp:628-641 | Every vertex is sent to an old vertex that shares with it a point within the radius, and vertices at the same place to the same one; the one chosen is the last old vertex that the welder sends to the same new one |
| MeshWeldAdjacency.CanonicalProperties | dep/g3dlite/MeshAlgAdjacency.cpp:637-641 | The canonical map is idempotent and sends two vertices to the same one exactly when they were welded |
| MeshWeldAdjacency.CanonicalOfTwins | dep/g3dlite/MeshAlgAdjacency.cpp:628-641 | Of two vertices at the same place the second is canonical for both |
| MeshWeldAdjacency.WeldAdjacency | dep/g3dlite/MeshAlgAdjacency.cpp:618-685 | After welding, corners and edge ends are canonical in this sense, the links are consistent, half-edges are conserved up to the map, and no two boundary edges could still be joined |
| MeshWeldExample.WeldTriangles | dep/g3dlite/MeshAlgAdjacency.cpp:618-685 | Two triangles whose seam has corners of their own share it afterwards: faces, the seam as the first edge, and all sides |
| VertexWelder.WithinIsNeighbor | dep/g3dlite/MeshAlgWeld.cpp:155-165 | With a radius of at most one grid cell per axis, whatever lies within the radius of a query was listed in the query's cell |
| VertexWelder.Welder.GetIndex | dep/g3dlite/MeshAlgWeld.cpp:122-177 | Answers with the first nearest listed vertex if it lies within the radius, else appends the vertex; the grid lists stay exactly right |
| VertexWelder.IndexIsBruteForce | dep/g3dlite/MeshAlgWeld.cpp:122-145 | With such a radius the answer is that of a search over all new vertices |
| VertexWelder.IndexKeepsSeparated | dep/g3dlite/MeshAlgWeld.cpp:142-176 | New vertices stay pairwise farther apart than the radius |
| VertexWelder.OwnIndex | dep/g3dlite/MeshAlgWeld.cpp:191-197 | Looking up a new vertex gives that vertex, so the second pass adds none |
| VertexWelder.SnappedResult | dep/g3dlite/MeshAlgWeld.cpp:191-197 | Every old vertex is sent to a new one within the radius, and toNew[toOld[k]] is k for every new vertex k |
| VertexWelder.Welder.Weld | dep/g3dlite/MeshAlgWeld.cpp:180-197 | The new vertices are exactly those of the first pass, which the second does not grow; each old vertex is sent to the first nearest of those listed in its cell, which lies within the radius, toOld names the last old vertex sent to each new one, and with a radius of at most one cell the image is the nearest of all new vertices |
| VertexWelder.Welder.constructor | dep/g3dlite/MeshAlgWeld.cpp:79-111 | The frame is exactly that of the box around the old vertices, and maps each of them into the unit cube, axes of no extent included |
| VertexWelder.AxisExactly | dep/g3dlite/MeshAlgWeld.cpp:114-119 | Which scaled ordinates fall in which of the 32 cells of an axis, those outside the unit interval included |
| VertexWelder.AxisScaleIs | dep/g3dlite/MeshAlgWeld.cpp:92-104 | An extent of at most 1/99999 counts as none, and any other is scaled to one |
| VertexWelder.WeldingIsDetermined | dep/g3dlite/MeshAlgWeld.cpp:180-197 | The answer of the welder is determined by the vertices and the radius, and vertices at the same place are sent to the same new one |
| WelderExample.WeldFive | dep/g3dlite/MeshAlgWeld.cpp:79-197 | With a radius of more than one cell: a vertex exactly as far from another as the radius is merged, and goes to a nearer one in the second pass; one that is closer to another than the radius is kept |
| Md5Process.OperationAsSet | dep/g3dlite/Crypto_md5.cpp:287-294 | The macro's order of additions computes the operation of section 3.4 of RFC 1321 |
| Md5Process.Round1 | dep/g3dlite/Crypto_md5.cpp:287-311 | The sixteen steps as written out are steps 1 to 16 of the standard: words, rotations and constants |
| Md5Process.Round2 | dep/g3dlite/Crypto_md5.cpp:313-337 | Likewise steps 17 to 32 |
| Md5Process.Round3 | dep/g3dlite/Crypto_md5.cpp:339-363 | Likewise steps 33 to 48 |
| Md5Process.Round4 | dep/g3dlite/Crypto_md5.cpp:365-389 | Likewise steps 49 to 64 |
| Md5Process.Process | dep/g3dlite/Crypto_md5.cpp:220-398 | One call is one block of RFC 1321 |
| Md5.CountAdd | dep/g3dlite/Crypto_md5.cpp:421-425 | The two words with carry hold the bit count modulo 2^64 |
| Md5.OffsetInBlock | dep/g3dlite/Crypto_md5.cpp:415 | The low word alone gives the length of the message modulo 64 |
| Md5.Md5State.Init | dep/g3dlite/Crypto_md5.cpp:401-408 | A fresh state stands for the empty message |
| Md5.Md5State.Append | dep/g3dlite/Crypto_md5.cpp:411-446 | Runs over the buffer exactly when a partial block is buffered and its length plus the size of the piece reaches 2^31; otherwise extends the message the state stands for by exactly the piece: registers, count and buffered tail |
| Md5.Md5State.Finish | dep/g3dlite/Crypto_md5.cpp:449-469 | Delivers the RFC 1321 digest of everything appended: padding ends on a block |
| Md5.HashChunks | dep/g3dlite/Crypto_md5.cpp:411-469 | However a message is cut into pieces an int can count, the digest is that of the whole, unless some piece runs over the buffer, which depends on nothing but the lengths |
| Md5.OneByteFirst | dep/g3dlite/Crypto_md5.cpp:428-431 | One byte followed by 2^31 - 1 bytes runs over the buffer; the other way round does not |
| Md5.CryptoMd5 | dep/g3dlite/Crypto_md5.cpp:65-73 | Hashes the bytes that are left after the size is converted to a signed 32-bit int |
| Md5.HashedIsWhole | dep/g3dlite/Crypto_md5.cpp:65-73 | That is the whole message exactly when it is shorter than 2^31 bytes |
| Rfc1321TestSuite.PaddedIs | dep/g3dlite/Crypto_md5.cpp:449-463 | Of every message, what each byte of the padded message is: the message, the byte 0x80, zeros, and the length in bits modulo 2^64, low-order byte first, on a whole number of blocks and with fewer than 64 zeros |
| Rfc1321TestSuite.DigestOfEmpty | dep/g3dlite/Crypto_md5.cpp:220-469 | The digest of the empty message is the literal of appendix A.5 of RFC 1321 |
| Rfc1321TestSuite.DigestOfAbc | dep/g3dlite/Crypto_md5.cpp:220-469 | Likewise that of abc |
| Rfc1321TestSuite.DigestOfLetters | dep/g3dlite/Crypto_md5.cpp:220-469 | Likewise that of all letters and digits, which takes two blocks |
| Md5.HashTestSuite | dep/g3dlite/Crypto_md5.cpp:65-73 | The function delivers these three digests |
| Md5.HashPieces | dep/g3dlite/Crypto_md5.cpp:411-469 | So do the streaming calls when the message comes in pieces |
| ConvexPolygons.IntersectionIsMix | dep/g3dlite/Line.cpp:17-32 | The line through two points at different heights meets the plane in a finite point, the mix at the fraction of the heights |
| ConvexPolygons.DirectionLengthIsIrrelevant | dep/g3dlite/Line.cpp:17-32 | Normalising the direction of a line does not move its intersection |
| ConvexPolygons.CrossingIsFinite | dep/g3dlite/ConvexPolyhedron.cpp:116-135 | When an edge changes sides its intersection is finite: the branch for an infinite one is unreachable |
| ConvexPolygons.ConvexPolygon.Cut | dep/g3dlite/ConvexPolyhedron.cpp:60-186 | Both parts, the new edge and the number of crossings, in every branch: a polygon parallel to the plane goes whole to the upper part exactly if 99999 times the height of its first vertex is above -1, and else whole to the lower; otherwise for each edge the vertices of a side and the crossings, in order, where vertices in the plane go to the upper part |
| ConvexPolygons.FuzzyExactly | dep/g3dlite/G3D/g3dmath.h:813-815 | A height passes the fuzzy comparison with zero exactly if 99999 times it is above -1 |
| ConvexPolygons.ClipDivides | dep/g3dlite/ConvexPolyhedron.cpp:99-183 | Every vertex over the plane or in it is in the upper part, every other one in the lower |
| ConvexPolygons.CutTriangle | dep/g3dlite/ConvexPolyhedron.cpp:60-186 | A sloping triangle is cut: the vertices of both parts and the ends of the new edge |
| ConvexPolygonTheorems.ClipSides | dep/g3dlite/ConvexPolyhedron.cpp:99-183 | No vertex of the upper part lies below the plane, none of the lower part above it |
| ConvexPolygonTheorems.CrossingsParity | dep/g3dlite/ConvexPolyhedron.cpp:141-185 | Any closed polygon crosses any plane an even number of times |
| ConvexPolygonTheorems.CutBalancesArea | dep/g3dlite/ConvexPolyhedron.cpp:99-183 | For every polygon, convex or not, the cross products around both parts add up to those around the polygon and around the polygon of crossings |
| ConvexPolygonTheorems.CutConservesArea | dep/g3dlite/ConvexPolyhedron.cpp:99-183 | With at most two crossings the oriented area is conserved |
| ConvexPolygonShape.DiagonalsBalance | dep/g3dlite/ConvexPolyhedron.cpp:185 | The heights over the plane of four points in a plane balance over the diagonals of their quadrilateral |
| ConvexPolygonShape.ConvexCut | dep/g3dlite/ConvexPolyhedron.cpp:99-185 | A strictly convex polygon is crossed never or twice, as the closing assertion demands, and its oriented area is conserved |
| ConvexPolygonShape.PartsAreConvex | dep/g3dlite/ConvexPolyhedron.cpp:99-183 | Both parts of a convex polygon are convex |
| ConvexPolygonShape.NewEdgeIsShared | dep/g3dlite/ConvexPolyhedron.cpp:137-144 | With two crossings the edge from newEdge.start to newEdge.stop is an edge of the lower part, and of the upper part the other way round |
| Conditions.EvalIsConjunction | contrib/convertConditions/ConvertConditions.py:63-69 | With AND evaluated recursively an entry holds exactly when all conditions under it hold; operands have smaller ids, so evaluation ends |
| Conditions.ComparedExactly | contrib/convertConditions/ConvertConditions.py:50-60 | A condition is not above another exactly if its kind, with equal kinds its first value, and with equal first values its second is at most that of the other |
| Conditions.PairsAreUnique | contrib/convertConditions/ConvertConditions.py:171-211 | No two AND entries share an unordered pair of operands |
| Conditions.InsertKeepsSound | contrib/convertConditions/ConvertConditions.py:63-66 | Appending an entry for conditions that no entry joins yet keeps ids equal to positions and no two entries joining the same conditions |
| Conditions.NoTriple | contrib/convertConditions/ConvertConditions.py:171-186 | If no pair that was found is joined with the condition left over, no entry joins the three conditions in any way |
| ConditionConverter.OrderConditions | contrib/convertConditions/ConvertConditions.py:112-119 | The two or three exchanges sort: descending, a permutation, proper conditions first, and the same order as that of an insertion sort |
| ConditionConverter.Converter.FindCondition | contrib/convertConditions/ConvertConditions.py:71-75 | The position of the entry searched for, 0 exactly when there is none |
| ConditionConverter.Converter.JoinTwo | contrib/convertConditions/ConvertConditions.py:202-211 | An entry that joins exactly two conditions, found or made, in a sound list |
| ConditionConverter.Converter.JoinThree | contrib/convertConditions/ConvertConditions.py:171-200 | Likewise for three conditions, over all three ways of splitting them; which pair is taken, and what is appended, is exactly that of the step as a function |
| ConditionConverter.Converter.ProcessRow | contrib/convertConditions/ConvertConditions.py:88-220 | Pass 0 learns the row's conditions; a later pass writes nothing unless it is the one for their number, then exactly one update that denotes exactly them, and reports an error exactly when one was never learned; list, updates and errors are those of the step as a function |
| ConditionPasses.ProgressTable | contrib/convertConditions/ConvertConditions.py:79-233 | One table in one pass answers its rows due in that pass, in order; list and updates are those of the steps |
| ConditionPasses.DoTables | contrib/convertConditions/ConvertConditions.py:260-299 | One database in one pass, with the tables of its expansion |
| ConditionPasses.Run | contrib/convertConditions/ConvertConditions.py:307-313 | Over the whole run every row due is answered by an update whose entry joins exactly the row's proper conditions, and the error branch is never taken; list, updates and their order are exactly those of the steps |
| ConditionPasses.VisitedSuffices | contrib/convertConditions/ConvertConditions.py:273-292 | The tables a later pass leaves out have nothing due in it |
| ConditionPasses.EveryRowOnce | contrib/convertConditions/ConvertConditions.py:307-313 | Every row with a proper condition gives rise to exactly one update over all passes, no other row to any |
| ConditionPasses.SameConditionsSameId | contrib/convertConditions/ConvertConditions.py:112-220 | Rows get the same id exactly when they have the same multiset of proper conditions |
| ConditionPasses.UpdateMeansRow | contrib/convertConditions/ConvertConditions.py:217-220 | What an update refers to holds exactly when all proper conditions of its row hold |
| ConditionPasses.Dump | contrib/convertConditions/ConvertConditions.py:316-325 | The dump holds every entry but the initial fill, once and in order |
| ConditionExample.RunExample | contrib/convertConditions/ConvertConditions.py:88-313 | The list and the updates after a run over rows of one, two and three conditions in no particular order |
| ConditionExample.TablesVisited | contrib/convertConditions/ConvertConditions.py:260-299 | The tables of every pass and every expansion, by name |
| BinaryOutputs.BinaryOutput.Spill | dep/g3dlite/BinaryOutput.cpp:148-182 | Dumping part of the buffer leaves disk plus buffer and the position unchanged; an assertion fails exactly when the position lies before what is dumped or behind the end, and otherwise what is kept is copied onto itself exactly when it is longer than what is dumped |
| BinaryOutputs.OverlapsExactly | dep/g3dlite/BinaryOutput.cpp:150-180 | What is kept is longer than what is dumped exactly with 15 * 2^20 - 1 to 20 * 2^20 - 1 bytes in the buffer |
| BinaryOutputs.BinaryOutput.ReserveBytes | dep/g3dlite/G3D/BinaryOutput.h:100-108 | Reserving and dumping end, whatever the allocator answers; data is dumped exactly when the bytes do not fit and no larger buffer is asked for and granted; old contents stay, the length reaches the position plus the request, running out of memory changes nothing, and appending never fails an assertion; a copy overlaps exactly when data has to be dumped with such an amount in the buffer; and with no allocation refused every request of at most 133,333,300 bytes is met when appending |
| BinaryOutputs.BinaryOutput.ReallocBuffer | dep/g3dlite/BinaryOutput.cpp:113-139 | Likewise from the middle of a reservation |
| BinaryOutputs.BinaryOutput.ReserveBytesWhenOutOfMemory | dep/g3dlite/BinaryOutput.cpp:142-194 | Likewise when no larger buffer can be had |
| BinaryOutputs.BinaryOutput.constructor | dep/g3dlite/BinaryOutput.cpp:197-233 | A new stream is empty, and so is its file: opening it to verify that it can be written truncates it |
| BinaryOutputs.DumpOverlaps | dep/g3dlite/BinaryOutput.cpp:142-194 | A stream of 16 MB without more memory on which the copy overlaps |
| BinaryOutputs.BinaryOutput.WriteBytes | dep/g3dlite/G3D/BinaryOutput.h:256-265 | Writes the bytes at the position into the sequence the stream stands for, and nothing else of it changes |
| BinaryOutputs.BinaryOutput.SetLength | dep/g3dlite/G3D/BinaryOutput.h:210-223 | The length becomes n exactly when it was n, or n is larger and the position is at the end |
| BinaryOutputs.SetLengthFallsShort | dep/g3dlite/G3D/BinaryOutput.h:210-223 | A stream of three bytes whose length setLength(5) leaves at 3 |
| BinaryOutputs.BinaryOutput.SetPosition | dep/g3dlite/G3D/BinaryOutput.h:241-253 | Contents stay; the position becomes p exactly when p is within the stream, or lengthening it to p fits the buffer or is granted a larger one; otherwise it is too far by as much as is dumped, unless the copy made for the dump overlaps, exactly when said above |
| BinaryOutputs.SetPositionGoesTooFar | dep/g3dlite/G3D/BinaryOutput.h:241-253 | A stream of one byte on which setPosition ends too far |
| BinaryOutputs.BinaryOutput.Commit | dep/g3dlite/BinaryOutput.cpp:314-354 | The file holds exactly the contents, whether parts were dumped before or not; a second call fails its assertion |
| BinaryOutputs.CommitTwice | dep/g3dlite/BinaryOutput.cpp:314-354 | With assertions off two commits of a stream that was never dumped leave its bytes twice in the file |
| BinaryOutputs.BinaryOutput.CommitToMemory | dep/g3dlite/BinaryOutput.cpp:357-363 | Delivers the contents of a stream of which nothing has been dumped |
| BinaryOutputs.BinaryOutput.BeginBits | dep/g3dlite/BinaryOutput.cpp:492-497 | Starts a bit run at the position |
| BinaryOutputs.BinaryOutput.WriteBits | dep/g3dlite/BinaryOutput.cpp:500-517 | Appends the lowest bits of a word, lowest first, to the bits written since beginBits |
| BinaryOutputs.BinaryOutput.EndBits | dep/g3dlite/BinaryOutput.cpp:520-528 | The stream has grown by the bits, filled up with zeros to whole bytes |
| BinaryOutputs.BinaryOutput.WriteUInt32 | dep/g3dlite/BinaryOutput.cpp:382-399 | Writes the four bytes of the number, the lowest first, or the highest first when bytes are swapped; each is given as a quotient and remainder of the number |
| ByteStreams.WordWritten | dep/g3dlite/BinaryOutput.cpp:382-399 | Where in a sequence that a word was written into the bytes of the number are found, in either order |
| BinaryOutputs.BinaryOutput.WriteString | dep/g3dlite/BinaryOutput.cpp:424-432 | Writes the string up to its first null, and a null |
| BinaryOutputs.BinaryOutput.WriteStringEven | dep/g3dlite/BinaryOutput.cpp:435-447 | Likewise, with a second null where that makes the length even |
| BinaryOutputs.BinaryOutput.WriteString32 | dep/g3dlite/BinaryOutput.cpp:450-453 | Likewise after the length as a word |
| BinaryInputs.BinaryInput.LoadIntoMemory | dep/g3dlite/BinaryInput.cpp:133-178 | The new window is a slice of the file, at least as long as asked and as before, and the absolute position is kept; memory is short only for more bytes than the window holds |
| BinaryInputs.BinaryInput.PrepareToRead | dep/g3dlite/G3D/BinaryInput.h:125-132 | What is to be read is in the window, at the same absolute position; the window stays, or moves to start there, exactly as the arithmetic of the two ends says, and fails only for more bytes than it holds |
| BinaryInputs.BinaryInput.ReadBytes | dep/g3dlite/BinaryInput.cpp:392-398 | Any run of reads returns the file's bytes in order, wherever the window is, moves it as said above, and is short of memory only if the window holds fewer bytes |
| BinaryInputs.BinaryInput.ReadUInt32 | dep/g3dlite/G3D/BinaryInput.h:303-318 | The number of the next four bytes of the file, the first the lowest, or the highest when bytes are swapped, as a sum of them |
| BinaryInputs.BinaryInput.SetPosition | dep/g3dlite/G3D/BinaryInput.h:247-253 | Any position of the file can be reached, backwards too, without fail; the window keeps its size and moves only if the position is outside |
| BinaryInputs.BinaryInput.Scan | dep/g3dlite/BinaryInput.cpp:455-472 | Counts the bytes before the next null or the last byte; stays inside the buffer exactly unless the window ends before the last byte of the file and holds no null from the position on |
| BinaryInputs.BinaryInput.ReadStringToNull | dep/g3dlite/BinaryInput.cpp:455-478 | Reads up to the null or the end of the file and consumes the null; leaves the buffer exactly when, for the window at the call, or the one loaded when the position is at its end, the search runs out; is short of memory only if the string with its null is longer than the window |
| BinaryInputs.StringPastTheWindow | dep/g3dlite/BinaryInput.cpp:323-326 | Every file of more than 50,000,001 bytes without a null in its first 50,000,000, opened with the window the constructor gives it: the search leaves the buffer |
| BinaryInputs.BinaryInput.ReadStringEven | dep/g3dlite/BinaryInput.cpp:517-523 | Likewise for any window, and skips the padding byte if there is one |
| BinaryInputs.BinaryInput.BeginBits | dep/g3dlite/BinaryInput.cpp:573-580 | Reads the first byte ahead; fails only for an empty window |
| BinaryInputs.BinaryInput.ReadBits | dep/g3dlite/BinaryInput.cpp:583-608 | The value holds the next bits of the file, lowest first; no read fails |
| BinaryInputs.BinaryInput.EndBits | dep/g3dlite/BinaryInput.cpp:611-619 | The position is that of the first byte of which no bit was read, the put-back of a zero-bit run included |
| BitStrings.OrAppends | dep/g3dlite/BinaryOutput.cpp:503-507 | Or with a bit shifted above all bits set extends a bit string by that bit |
| StreamRoundTrip.FieldAt | dep/g3dlite/BinaryInput.cpp:583-608 | Each field of a bit run reads back as its value modulo 2 to its width |
| StreamRoundTrip.SaveAndLoad | dep/g3dlite/BinaryOutput.cpp:382-528 | Whatever sequence of words, strings and bit runs is written to memory is read back by the matching readers, in either byte order; it fails only by running out of memory, and only if an allocation is refused |
| StreamRoundTrip.SaveAndLoadFile | dep/g3dlite/BinaryOutput.cpp:113-354 | Likewise through a committed file, dumped in parts or not, and a window of any size. The file is exactly the bytes of the items; writing succeeds if no allocation is refused and no item asks for more than 133,333,300 bytes at once. What is read is what was written; reading leaves the buffer exactly when a string ends behind the window of that moment, and is short of memory only if an item is longer than the window; with a window as large as the file it succeeds |
| StreamExamples.SaveItems | dep/g3dlite/BinaryOutput.cpp:382-528 | A word, bit fields and strings: the bytes of the file in both orders, and what is read from it |
| StreamRoundTrip.ReadItems | dep/g3dlite/BinaryInput.cpp:432-619 | The reader gets every item and ends exactly where the writer did, unless memory is short for an item longer than the window; it ends so only if no string ends behind the window of that moment, and is outside the buffer only if one does |
| StreamRoundTrip.RunsOutExactly | dep/g3dlite/BinaryInput.cpp:455-472 | The search for the null of a string leaves the buffer exactly when the window ends before that null and before the last byte of the file |
| StreamRoundTrip.WholePasses | dep/g3dlite/G3D/BinaryInput.h:125-132 | Once the window reaches the end of the file, no string ends behind it, whatever is read |
| AABoxes.CountContained | dep/g3dlite/AABox.cpp:173-208 | The early-out count tells exactly whether the plane culls, straddles or contains the box |
| AABoxes.CulledByWithMask | dep/g3dlite/AABox.cpp:142-219 | The first tested plane that culls, or none; the child mask is that plane alone, or exactly the tested planes the box straddles |
| AABoxes.CulledBy | dep/g3dlite/AABox.cpp:222-283 | The same verdict without a mask |
| AABoxes.VerdictIsUnique | dep/g3dlite/AABox.cpp:142-283 | Both overloads agree on verdict and plane |
| AABoxes.CulledIsOutside | dep/g3dlite/AABox.cpp:194-203 | A plane culls a box exactly when the whole box lies in its negative half space |
| AABoxes.MaskInheritance | dep/g3dlite/AABox.cpp:194-209 | For a child inside its parent the parent's child mask gives the verdict of the parent's own mask, and the same plane unless the parent was culled |
| AABoxes.DescentKeepsVerdicts | dep/g3dlite/AABox.cpp:142-219 | However deep the boxes are nested, no verdict changes by inheriting masks |
| AABoxExample.CullBox | dep/g3dlite/AABox.cpp:142-219 | A box and three planes: the verdict, the plane and the child mask; with the third plane farther out, and with that plane masked |
| AnyStreams.TextInput.DeserializeComment | dep/g3dlite/Any.cpp:907-920 | Joins successive comments and trims the result, for every token list |
| AnyStreams.TextInput.DeserializeName | dep/g3dlite/Any.cpp:934-949 | Joins symbols up to an opening bracket, or fails at the first other token; the tests for a missing bracket after it cannot fail |
| AnyStreams.TextInput.ReadUntilCommaOrClose | dep/g3dlite/Any.cpp:1110-1130 | Skips comments and line ends to a separator or closing bracket, or fails |
| AnyStreams.TextInput.Deserialize | dep/g3dlite/Any.cpp:961-1095 | For every token list, well-formed or not, the value or the error of the parsing function, the rest of the tokens, and termination |
| AnyStreams.TextInput.DeserializeBody | dep/g3dlite/Any.cpp:1133-1210 | Likewise for the elements of an array or the entries of a table |
| AnyStreams.TextOutput.Serialize | dep/g3dlite/Any.cpp:818-904 | Appends exactly the tokens of the value at the indentation it is written with, which is put back afterwards; a comment is what the lexer finds between its marks, indented lines included, and names and keys are whatever it makes of their text |
| AnyText.ConvertNewlines | dep/g3dlite/TextOutput.cpp:169-190 | Writes the text with every line end converted |
| AnyText.IndentAppend | dep/g3dlite/TextOutput.cpp:356-381 | Writes the characters with as many blanks in front of every line that starts as the indentation says, and remembers whether the next text starts one |
| AnyText.ReadBlockComment | dep/g3dlite/TextInput.cpp:338-362 | Collects the characters up to the first end mark, a return and line feed as one |
| AnyText.CommentIsScanned | dep/g3dlite/Any.cpp:818-822 | A comment written with an indentation is scanned back as it was written exactly when it holds no null, no end mark, and no line end that is converted or indented: no line feed at all if there is an indentation or lines end as on Windows, and otherwise no return with a line feed |
| AnyText.OneCommentIsScanned | dep/g3dlite/Any.cpp:818-822 | A comment of which no end mark is written is found as one comment, whatever follows |
| AnyText.TwoLines | dep/g3dlite/TextOutput.cpp:356-381 | The comment a, line feed, b is found as it was where nothing is indented, and where lines are indented by four with four blanks in front of b |
| AnyText.Escape | dep/g3dlite/TextOutput.cpp:75-106 | Writes the string with every special character but the quotation mark escaped |
| AnyText.ParseQuotedString | dep/g3dlite/TextInput.cpp:844-915 | Collects the characters up to the closing quotation mark, escape sequences replaced |
| AnyText.StringIsScanned | dep/g3dlite/TextOutput.cpp:75-112 | An escaped string is scanned back as it was exactly when it holds no quotation mark |
| AnyRoundTrip.WhatIsRead | dep/g3dlite/Any.cpp:818-1210 | For every printable nested value at any depth, followed by anything, exactly what the parser does: the value with each comment as it was found, converted, indented and trimmed; at a quoted table name a string, or inside another value a missing comma; at a key of several tokens or of none a missing equals sign; at one that is no symbol a missing name |
| AnyRoundTrip.ReadBackExactly | dep/g3dlite/Any.cpp:818-1210 | A printable value at any depth is read back, and reading stops at what follows, if and only if no table name in it needs quotes, the lexer reads every key as one symbol, and every comment is trimmed and holds no null, no end mark, and no line end that is converted or, within tables and arrays, indented |
| AnyRoundTrip.CommentExactly | dep/g3dlite/Any.cpp:907-920 | A comment written and read at some depth is the same exactly if it is trimmed and holds none of these |
| AnyRoundTrip.RereadExactly | dep/g3dlite/Any.cpp:818-1210 | A value is the same with its comments as they are read exactly if all its comments are the same, each at its own depth |
| AnyRoundTrip.RoundTrip | dep/g3dlite/Any.cpp:818-1210 | Such values are read back |
| AnyRoundTrip.PrintingIsInjective | dep/g3dlite/Any.cpp:818-904 | Different such values print differently |
| AnyRoundTrip.QuotedNameIsLost | dep/g3dlite/Any.cpp:850-856 | The table called a b is read back as that string, up to the brace; inside an array it makes reading fail |
| AnyRoundTrip.KeyIsLost | dep/g3dlite/Any.cpp:1168-1184 | A table with the key a b, or with the key 12, makes reading fail |
| AnyRoundTrip.KeysCollide | dep/g3dlite/Any.cpp:861-868 | A key that spells an entry of its own makes two different tables print alike |
| AnyRoundTrip.TwoLinesNested | dep/g3dlite/Any.cpp:853-899 | With Unix line ends a value with a comment of two lines is read back on its own, and within an array comes back with its second line indented; with those of Windows it never comes back as it was |
| AnyRoundTrip.CommentIsRead | dep/g3dlite/Any.cpp:907-920 | Of what is found between the marks of a comment, the blanks around it are trimmed, and the line ends put behind it add nothing |
| AnyRoundTrip.EntriesAreParsed | dep/g3dlite/Any.cpp:1150-1206 | Printed entries are read in order, each with its value as that is read, up to the first that is not, whose error is the result |
| AnyRoundTrip.ElementsAreParsed | dep/g3dlite/Any.cpp:1150-1206 | Likewise printed elements, each with the comment in front of it |
| AnyTokens.NeedsQuotesExactly | dep/g3dlite/Any.cpp:788-816 | A name is written without quotes exactly if it starts with a letter and consists of letters, digits, dots, -> and :: only; an underscore, which is accepted as the first character, makes it need quotes all the same |
| AnyTokens.WhiteSpaceIs | dep/g3dlite/G3D/stringutils.h:131-133 | White space is the blank and the characters 9 to 13 |
| AnyTables.SetEntryExactly | dep/g3dlite/Any.cpp:640-647 | Setting a key in a table of ascending keys keeps them ascending, gives the key that value, and keeps every other entry |
| AnyForms.ArrayIsRead | dep/g3dlite/Any.cpp:1133-1210 | An array is read as its elements in order, whatever follows: in parentheses or in brackets, with commas or semicolons, the last one optional, and with comments and line ends between them |
| AnyForms.TableIsRead | dep/g3dlite/Any.cpp:1133-1210 | A table is read whose keys, strings or symbols, are set in any order and any number of times: it holds for each key the last value set, in ascending order of the keys, and nothing else |
| AnyForms.TableIsDetermined | dep/g3dlite/Any.cpp:1133-1210 | There is only one such table |
| AnyExamples.ReadTable | dep/g3dlite/Any.cpp:961-1210 | A table written by hand with keys out of order, one of them twice, and all of these forms; and what is read |
| AnyExamples.ReadNotes | dep/g3dlite/Any.cpp:907-920 | Two comments on lines of their own, and what they are joined to |
| AnyExamples.PrintTable | dep/g3dlite/Any.cpp:818-904 | The tokens of that table as it is printed |
| AnyExamples.EscapeLine | dep/g3dlite/TextOutput.cpp:75-106 | Each special character and how it is escaped |
| AnyExamples.ParseLine | dep/g3dlite/TextInput.cpp:844-915 | Each escape sequence and what it stands for |
| AnyExamples.ConvertLine | dep/g3dlite/TextOutput.cpp:169-190 | Each kind of line end and what it is converted to on either system |
| AnyExamples.IndentLines | dep/g3dlite/TextOutput.cpp:356-381 | Two lines with an indentation of two |
| AnyExamples.IndentationIs | dep/g3dlite/TextOutput.cpp:42-57 | Four blanks for each level, and never more than 79 |
| AnyExamples.ReadStarredComment | dep/g3dlite/TextInput.cpp:338-362 | A comment with a star and a line end in it |
| AnyStreams.PrintAndParse | dep/g3dlite/Any.cpp:767-786 | Printing and parsing with the streams gives the value back if and only if it is readable and its comments come back, and otherwise exactly what `WhatIsRead` says |
| TgaFormat.RowsRoundTrip | dep/g3dlite/GImage_tga.cpp:59-91 | Rows stored upside down with red and blue exchanged read back as they were |
| TgaFormat.HeaderIsFound | dep/g3dlite/GImage_tga.cpp:18-57 | The decoder finds the tag and every header field where the encoder puts them |
| TgaFormat.RoundTrip | dep/g3dlite/GImage_tga.cpp:15-234 | Every image of 3 or 4 channels and positive size up to 32767 is read back from its file; a single-channel image comes back with three equal channels |
| TgaPlaces.OpenSays | dep/g3dlite/GImage_tga.cpp:118-174 | Width, height, bits, type and start of an accepted file as numbers of its bytes |
| TgaPlaces.EncodedFile | dep/g3dlite/GImage_tga.cpp:15-95 | The file of every proper image, byte by byte: the last row first, blue first, a single channel three times |
| TgaPlaces.DecodedFile | dep/g3dlite/GImage_tga.cpp:112-192 | The image in every accepted uncompressed file, byte by byte |
| TgaPlaces.DecodedPackets | dep/g3dlite/GImage_tga.cpp:193-231 | Likewise in a 24-bit run-length file, of its expanded packets |
| TgaPackets.RunLengthIsExpansion | dep/g3dlite/GImage_tga.cpp:193-231 | For all rows of run and raw packets that fill the rows exactly, a 24-bit run-length file of them decodes to the same image as the uncompressed file of the pixels they stand for, whatever identification, origin and descriptor it has |
| TgaPackets.RowsAreExpanded | dep/g3dlite/GImage_tga.cpp:193-231 | Stored packets are read as the pixels they stand for, wherever they lie, and reading ends behind them |
| TgaPackets.ExpansionExactly | dep/g3dlite/GImage_tga.cpp:193-231 | Pixel data is accepted exactly when it starts with packets that fill the rows, and is then what they stand for |
| TgaCodec.GImage.EncodeTGA | dep/g3dlite/GImage_tga.cpp:15-95 | Writes exactly the file of the image, whatever the skipped bytes hold; every byte of header and tag is given as a number, and every byte of the pixels by the row, column and channel it has in the image |
| TgaCodec.GImage.DecodeTGA | dep/g3dlite/GImage_tga.cpp:112-234 | For every byte sequence: fails, or leaves the image the file describes, its size and channels given by the bytes of the header and each byte of the image by where it lies in the file or among its expanded packets; of a 32-bit run-length file, what the misplaced pixels leave of the memory |
| TgaExamples.DecodeRuns | dep/g3dlite/GImage_tga.cpp:112-234 | A run-length file of two rows and the bytes of its image |
| TgaCodec.GImage.DecodeUncompressed | dep/g3dlite/GImage_tga.cpp:176-192 | The loops from the last row up fill the pixels in place |
| TgaCodec.GImage.DecodeRunLength | dep/g3dlite/GImage_tga.cpp:193-231 | Likewise for 24-bit packets that do not go on in the next row |
| TgaCodec.GImage.ReadPacket | dep/g3dlite/GImage_tga.cpp:199-228 | One run-length or raw packet of a 24-bit file |
| TgaCodec.GImage.DecodeRunLength32 | dep/g3dlite/GImage_tga.cpp:193-231 | The same loops on a 32-bit file: pixels three bytes apart, runs without alpha, raw packets of three bytes for four |
| TgaRunLength32.LastByteIsKept | dep/g3dlite/GImage_tga.cpp:201-228 | However a 32-bit run-length file goes on, the alpha of the last pixel is never written |
| TgaRunLength32.DeterminedExactly | dep/g3dlite/GImage_tga.cpp:193-231 | An accepted 32-bit run-length file determines its image, whatever the memory held, exactly when there is no pixel |
| TgaRunLength32.OnePixelIsAccepted | dep/g3dlite/GImage_tga.cpp:112-231 | A 32-bit run-length file of one pixel is accepted; the colours are those of its raw packet, and the alpha is what the memory held |
| TerrainHeights.Grids.MergeCells | contrib/extractor/System.cpp:370-437 | Every point holds what the last cell that covers it gives, or what it held before |
| TerrainHeights.LastCellWins | contrib/extractor/System.cpp:395-437 | Despite overlapping writes an outer point (y, x) belongs to cell (i, j) = (min(y/8, 15), min(x/8, 15)), and gets the height of that cell plus, if it has a grid, the value numbered 17 (y - 8 i) + (x - 8 j) |
| TerrainHeights.InnerCell | contrib/extractor/System.cpp:404-435 | An inner point belongs to cell (y/8, x/8), and gets the height of that cell plus, if it has a grid, the value numbered 17 (y mod 8) + 9 + x mod 8 |
| TerrainHeights.WidenLimits | contrib/extractor/System.cpp:441-460 | The limits enclose all heights, and each is an initial limit or a height of the grid |
| TerrainHeights.Grids.LimitHeights | contrib/extractor/System.cpp:463-477 | Heights below the minimum are raised to it, all others kept; the upper limit stays the greatest of all heights and its initial value, and the lower one the least, both raised likewise |
| TerrainHeights.PackAccuracy | contrib/extractor/System.cpp:267-275 | With 255 or 65535 steps over the range every height packs into 0 to 255 or 65535, and unpacks within half a step |
| TerrainHeights.Grids.StoreHeights | contrib/extractor/System.cpp:366-535 | From cells to packed grids: the limits are the greatest and the least of the limited heights, or the initial values where those are beyond them; exactly when each storage is chosen for such limits; and that what is packed fits and unpacks to the limited heights within half a step |
| TerrainExample.StoreSlope | contrib/extractor/System.cpp:366-535 | A tile that rises from cell to cell: limits, storage, and heights where cells meet, at the edges and within a cell |

## Left out

- Rounding, NaN and infinities of floating point, and the iterations for singular values and eigenvalues: there is no exact statement to prove without an error model.
- MeshAdjacency.Mesh.ComputeAdjacency: takes the face normals as an argument, because normalising them needs square roots; every property holds for any normals.
- ConvexPolygons.ConvexPolygon.Cut: takes the tests for a negligible area and for a plane parallel to the polygon as arguments, because both need square roots.
- VertexWelder.IndexIsBruteForce: needs a radius of at most one grid cell along each scaled axis, which the welder does not check; with a larger one nearby vertices can lie in cells that were not searched.
- The polyhedron cut that assembles a cap from the new edges (`dep/g3dlite/ConvexPolyhedron.cpp:258`): it matches end points by smallest distance to absorb rounding.
- BinaryOutputs.BinaryOutput.WriteBytes: lengths are unbounded integers, so the overflow of the original's 32-bit lengths beyond 2 GB is not modelled.
- BinaryOutputs.BinaryOutput.Commit: a file that cannot be opened, compression, and creating directories.
- BinaryInputs.BinaryInput.constructor: how large the first window is depends on the free memory and is an argument; compressed and zipped input, and readStringNewline.
- StreamRoundTrip.SaveAndLoad: a run of bit fields of total width zero must not come last, because the reader needs a following byte even to read no bit; fields are at most 32 bits wide, the width of the word they are read into.
- TgaCodec.GImage.DecodeTGA: a packet that goes on past the end of a row is reported as an error here, where the original relies on the format to rule it out and writes on.
- TgaCodec.GImage.EncodeTGA: writes to a byte sequence instead of a BinaryOutput, which is proved to be one.
- AnyStreams.TextInput.Deserialize: the include pragma, which loads another file, and the positions recorded for error messages.
- AnyRoundTrip.WhatIsRead: takes the tokens of a bare word from any lexer, comments and strings as `AnyText` shows them to be scanned, where what is written of a comment holds no end mark, and a number as its token: that numbers print and scan with limited precision, and the word wrap of `unparse`, which `save` turns off, are not modelled. Keys in which the parser would take something for a comment, a string, a closing brace or an equals sign are not printable in its sense; for one of those `KeysCollide` shows what can happen.
- ConditionPasses.Run: starts from the initial fill, not from a conditions table loaded before; the two key names in the text of a statement, and the connection to the database.
- Md5.Md5State.Append: pieces of 2^31 bytes or more, which the signed length parameter cannot describe; and what a piece that runs over the buffer overwrites.
- Everything of `contrib/extractor` but the height grids: archives, area flags, liquids and holes.
- Image formats other than TGA, colours, cameras, lights, frames, sockets and threads: per-element copies and type switches with easy claims.
- The intersection tests of `dep/g3dlite/Intersect.cpp`: the fields they read are set up in a header that is not part of this model, and some cases fall through.
