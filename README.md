# libmlearn core in Dafny

This project models the core of libmlearn, a C++ machine-learning library, and proves properties of the model:

- **Matrices** (`matrix.dfy`): the dense column-major `Matrix` class, CPU path.
  - Each primary matrix owns a buffer and a transpose view `T`. The view aliases the same buffer and has the transposed flag set.
  - Modelled operations: construction, copying, identity/ones/zeros, transpose, product, diagonalize, the truncation step of eigen, determinant from LU factors, sums and means, and the in-place element updates.
  - Also modelled: save/load, including the save/load round trip.
- **Dense** (`dense.dfy`): the value side of a matrix, `Mat`.
  - It holds the shape, the transposed flag and the elements.
  - It also holds the reference definitions the class is proved against: the product, the column range, the diagonal matrix, the LU determinant, and the eigenpair cut-off `KeepFrom`.
- **Knn** (`knn.dfy`): the k-nearest-neighbour classifier.
  - The mode of a neighbour list: the most frequent label, with ties won by the label that appears first.
  - Prediction: one label per test column, always the label of some training entry.
- **Bayes** (`bayes.dfy`): the Bayes discriminant `-½·(x-μ)ᵀ·S⁻¹·(x-μ)`, and prediction by the first class of highest score.
- **Pca**, **Lda** (`pca.dfy`, `lda.dfy`): the PCA and LDA feature layers.
  - How their dimensions default, which eigenproblem they solve, and the shapes of every intermediate.
  - The final projection matrix; project, save and load.
- **Timing** (`timer.dfy`): the nested phase timer.
  - Push and pop keep the nesting level equal to the number of running items.
  - Also modelled: the name-column width of the report.
- **IO** (`iodevice.dfy`): the binary serialiser over a byte sequence and a read cursor.
  - Round trips for bool, int and float.
  - The length-prefixed, NUL-terminated string encoding, and what it reads back when the string holds a NUL.
- **Data** (`dataset.dfy`): the data-set entry type (a label and a name).

Routines outside this model are parameters, and the routine's own body is not modelled. These are:

- the LAPACK eigensolver and LU factoriser;
- the matrix inverse;
- the class-scatter routines;
- the distance function;
- the clock.

Some of the source's aborts become statuses: a LAPACK failure (`assert(info == 0)`), LDA's `n1 <= 0` exit and loading into a non-empty matrix give `ok == false`, `Aborted`, `TooSmall` or `NotEmpty`. The shape and range assertions become preconditions, for example product's inner dimensions, add and subtract shapes, column ranges, and timer_pop on an empty stack.

## Model

| member | source | states |
|---|---|---|
| Dense.Product | src/math/matrix.cpp:707-753 | for operands whose resolved inner dimensions agree, a matrix exists whose every (i, j) is the dot product of row i of op(A) and column j of op(B), op transposing a view |
| Dense.TransposeTwice | src/math/matrix.cpp:845-862 | transposing the transpose gives back the original shape and every element |
| Dense.IdentityLeftUnit | src/math/matrix.cpp:234-251 | the product of the identity with B has every element equal to B's |
| Dense.CenteredRowsSumToZero | src/math/matrix.cpp:630-648 | subtracting the mean column from every column leaves every row summing to zero |
| Dense.ColumnRangeIsSlice | src/math/matrix.cpp:168-180 | the contiguous block i·rows..j·rows of a column-major buffer is exactly columns i..j-1 |
| Dense.RowRangeIsSlice | src/math/matrix.cpp:564-565 | a column range of a row vector is the slice of its elements |
| Dense.WithColumnMeaning | src/math/matrix.cpp:904-919 | column i of the result is column src of B, and every other column is unchanged |
| Dense.PivotSignIsUnit | src/math/matrix.cpp:447-452 | the sign accumulated over the pivots is +1 or -1 |
| Dense.ExtraExchangeFlipsSign | src/math/matrix.cpp:447-452 | turning one identity pivot into an exchange negates the sign |
| Dense.FirstAtLeastEpsilon | src/math/matrix.cpp:555-559 | the first index whose eigenvalue is at least EPSILON: all before it are below, it is at least EPSILON or the end |
| Dense.KeptAreLargeAndFew | src/math/matrix.cpp:555-565 | for ascending eigenvalues, at most n1 pairs survive and every survivor is at least EPSILON |
| Dense.ExactlyN1WhenEnoughValid | src/math/matrix.cpp:561-562 | when the n1 largest eigenvalues reach EPSILON, exactly n1 pairs are kept |
| Dense.FewerValidKeepsFewer | src/math/matrix.cpp:555-562 | when fewer than n1 eigenvalues reach EPSILON, fewer than n1 pairs are kept |
| Matrices.DecodeEncode | src/math/matrix.cpp:349-374 | loading at the position where a matrix was saved reads back its shape and elements, and ends right after it, whatever surrounds it in the file |
| Matrices.Matrix.constructor | src/math/matrix.cpp:121-140 | a fresh rows×cols buffer, and a fresh transpose view that shares it, has the same shape and no view of its own |
| Matrices.Matrix.View | src/math/matrix.cpp:133-139 | the view has the given buffer and shape, is transposed and has no view |
| Matrices.Matrix.Empty | src/math/matrix.cpp:206-214 | the 0×0 matrix without a view |
| Matrices.Matrix.FromRowMajor | src/math/matrix.cpp:149-159 | element (i, j) is src[i·cols + j], for every i, j |
| Matrices.Matrix.CopyColumns | src/math/matrix.cpp:168-180 | a fresh rows×(j-i) matrix whose column c is column i+c of M |
| Matrices.Matrix.Moved | src/math/matrix.cpp:197-201 | the new matrix takes over M's fields, and M is left empty without a view |
| Matrices.Matrix.Copy | src/math/matrix.cpp:187-190 | a fresh matrix with M's shape and elements, made as the column range 0..cols |
| Matrices.Matrix.Zeros | src/math/matrix.cpp:312-325 | a fresh rows×cols matrix with every element 0 |
| Matrices.Matrix.Ones | src/math/matrix.cpp:259-276 | a fresh rows×cols matrix with every element 1 |
| Matrices.Matrix.Fill | src/math/matrix.cpp:267-271 | every element (i, j), and so every buffer slot, becomes x |
| Matrices.Matrix.Identity | src/math/matrix.cpp:234-251 | a fresh n×n matrix with ones on the diagonal and zeros elsewhere |
| Matrices.Matrix.Transpose | src/math/matrix.cpp:845-862 | a fresh cols×rows matrix R with R(i, j) = M(j, i) |
| Matrices.Matrix.Product | src/math/matrix.cpp:707-753 | a fresh op(A)·op(B), with the shapes resolved from both transposed flags |
| Matrices.Matrix.Diagonalize | src/math/matrix.cpp:467-487 | a fresh n×n matrix with the vector on its diagonal and zeros elsewhere |
| Matrices.Matrix.Eigen | src/math/matrix.cpp:501-566 | succeeds iff the solver succeeds and a pair survives the cut-off; V holds the kept eigenvector columns and D the kept eigenvalues on its diagonal |
| Matrices.Matrix.KeepPairs | src/math/matrix.cpp:564-565 | V is columns i.. of the eigenvectors, and D is the diagonal of eigenvalues i.. |
| Matrices.Matrix.Determinant | src/math/matrix.cpp:415-462 | succeeds iff the factorisation succeeded; the result is the sign of the row exchanges times the product of U's diagonal |
| Matrices.Matrix.Sum | src/math/matrix.cpp:758-775 | the sum of the vector's elements in storage order |
| Matrices.Matrix.MeanColumn | src/math/matrix.cpp:630-648 | a fresh rows×1 vector whose entry r is the mean of row r |
| Matrices.Matrix.MeanRow | src/math/matrix.cpp:653-671 | a fresh 1×cols vector whose entry c is the mean of column c |
| Matrices.Matrix.Add | src/math/matrix.cpp:869-895 | every element becomes its old value plus B's old value |
| Matrices.Matrix.Subtract | src/math/matrix.cpp:998-1024 | every element becomes its old value minus B's old value |
| Matrices.Matrix.ElemMult | src/math/matrix.cpp:972-991 | every element is scaled by c |
| Matrices.Matrix.ElemApply | src/math/matrix.cpp:952-965 | every element becomes f of its old value |
| Matrices.Matrix.SubtractColumns | src/math/matrix.cpp:1035-1051 | M(r, c) becomes M(r, c) - a(r) for every r and c, even when a aliases M |
| Matrices.Matrix.SubtractRows | src/math/matrix.cpp:1062-1078 | M(r, c) becomes M(r, c) - a(c) for every r and c, even when a aliases M |
| Matrices.CopyBlock | src/math/matrix.cpp:916 | memcpy: the n target elements take the source's old values, and every other element is unchanged |
| Matrices.Matrix.AssignColumn | src/math/matrix.cpp:904-919 | column i becomes column j of B, and every other element is unchanged (as intended; see Findings) |
| Matrices.Matrix.AssignRow | src/math/matrix.cpp:928-945 | row i becomes row j of B, and every other row is unchanged |
| Matrices.Matrix.Save | src/math/matrix.cpp:349-354 | appends rows, cols and the buffer in storage order |
| Matrices.Matrix.Load | src/math/matrix.cpp:361-374 | refuses a non-empty matrix, and otherwise loads exactly what Decode reads at pos, with a fresh buffer and view; if it does not load, nothing changes |
| Matrices.Swap | src/math/matrix.cpp:1086-1094 | exchanges every field, so buffers and views change hands together and validity is kept |
| Matrices.AssignColumnAsWritten | src/math/matrix.cpp:912-916 | the code as written puts column 0 of B into column i and leaves every other column as it was |
| Matrices.AssignColumnIgnoresJ | src/math/matrix.cpp:912-916 | with B = [1 2] and j = 1, the code as written stores 1 where B(0, 1) = 2 was meant |
| Knn.FirstOrder | src/classifier/knn.cpp:38-59 | the counts list holds each label of the input, and only those, exactly once |
| Knn.FirstOrderFollowsFirstIndex | src/classifier/knn.cpp:44-55 | the counts list is in order of first appearance in the input |
| Knn.CountsStep | src/classifier/knn.cpp:41-59 | one step of the counting loop, whether it appends a new label or increments a found one, keeps every count equal to the occurrences so far |
| Knn.BestIn | src/classifier/knn.cpp:61-68 | the strict `<` scan picks a maximal count, and every earlier entry has a strictly smaller count |
| Knn.ModeOfIsMode | src/classifier/knn.cpp:36-71 | the mode occurs in the list, no label occurs more often, and among labels of equal count it appears first |
| Knn.ModeIsUnique | src/classifier/knn.cpp:36-71 | at most one label has those three properties |
| Knn.FirstMax | src/classifier/knn.cpp:61-68 | the entry the second loop keeps has a largest count, and every earlier entry has a strictly smaller one |
| Knn.FirstMaxIsBestIn | src/classifier/knn.cpp:61-68 | on a finished tally, scanning the entries picks the same label as scanning the distinct labels by their counts |
| Knn.TallyPicksMode | src/classifier/knn.cpp:36-71 | a finished tally of a non-empty list is non-empty, and its first largest entry is the mode |
| Knn.Tally | src/classifier/knn.cpp:38-59 | the counts list after the first loop: each distinct label once, in order of first appearance, with its number of occurrences |
| Knn.Largest | src/classifier/knn.cpp:61-68 | the second loop returns the first entry with the largest count |
| Knn.Mode | src/classifier/knn.cpp:36-71 | kNN_mode's two loops compute the mode of the labels of a non-empty list |
| Knn.NeighborsOf | src/classifier/knn.cpp:100-108 | one neighbour per training column j, with Y[j]'s label and the distance from test column i to training column j |
| Knn.KeptAreNearest | src/classifier/knn.cpp:111-113 | after sorting by kNN_compare and keeping k, every kept neighbour is at least as near as every discarded one |
| Knn.ModeIsNeighborLabel | src/classifier/knn.cpp:111-116 | the mode of the kept neighbours is the label of one of the neighbours |
| Knn.InsertionSort | src/classifier/knn.cpp:26-29 | a sort by kNN_compare: sorted by distance, a permutation, of the same length |
| Knn.InsertionSortSortsByDistance | src/classifier/knn.cpp:111 | a sort meeting the requirements that predict places on std::sort exists |
| Knn.KnnLayer.constructor | src/classifier/knn.cpp:79-83 | stores k and the distance function |
| Knn.KnnLayer.Neighbors | src/classifier/knn.cpp:100-108 | the inner loop builds one neighbour per training column, in order, with its label and its distance to test column i |
| Knn.KnnLayer.PredictColumn | src/classifier/knn.cpp:99-118 | the label for test column i is the mode of the labels of its k nearest neighbours, and is some training entry's label |
| Knn.KnnLayer.Predict | src/classifier/knn.cpp:94-122 | one label per test column, in order; each is the mode of its k nearest training labels, and each is some training entry's label |
| Knn.PredictionIsTrainingLabel | src/classifier/knn.cpp:98-119 | every prediction is the label of some training entry |
| Bayes.Diff | src/classifier/bayes.cpp:28 | x - μ element by element |
| Bayes.ColumnCopyIsColumn | src/classifier/bayes.cpp:63 | X_test(i, i+1) holds exactly column i of X_test |
| Bayes.RowTimesIsDot | src/classifier/bayes.cpp:30 | the entries of (x-μ)ᵀ·S⁻¹ computed through the view are the sums Σₐ d(a)·S(a, b) |
| Bayes.QuadIsDot | src/classifier/bayes.cpp:30 | ((x-μ)ᵀ·S⁻¹)·(x-μ) is the quadratic form Σ_b (Σₐ d(a)·S(a, b))·d(b) |
| Bayes.BayesProb | src/classifier/bayes.cpp:26-31 | the result is -½·(x-μ)ᵀ·S⁻¹·(x-μ), and x is passed by value |
| Bayes.ArgMax | src/classifier/bayes.cpp:69 | max_element: an index of a maximal score with every earlier score strictly smaller |
| Bayes.ArgMaxIsFirstMax | src/classifier/bayes.cpp:69 | that index is the only one with those properties |
| Bayes.ClassScores | src/classifier/bayes.cpp:59-66 | one score per class, in class order, each the discriminant of test column i under that class's mean and inverse scatter |
| Bayes.ClassModelsFit | src/classifier/bayes.cpp:62-63 | the means and inverted scatters predict receives have the shapes bayes_prob needs |
| Bayes.ClassifyIsFirstBest | src/classifier/bayes.cpp:68-71 | the label picked is that of a class whose discriminant no class beats, with every earlier class scoring strictly lower |
| Bayes.PredictColumn | src/classifier/bayes.cpp:59-71 | the label for one test column is the class at the first largest discriminant |
| Bayes.Predict | src/classifier/bayes.cpp:55-74 | one label per test column, in order, each the class at the first largest discriminant of that column |
| Pca.ResolveN1 | src/pca.cpp:35-38 | -1 stands for min(rows, cols), and any other value is kept |
| Pca.GramTermsSymmetric | src/pca.cpp:45 | a partial sum Σ_{a<n} A(i, a)·B(a, j) is symmetric in i and j when each of its terms is |
| Pca.GramIsSymmetric | src/pca.cpp:42-71 | XᵀX and XXᵀ are symmetric square matrices, as the symmetric eigensolver assumes |
| Pca.PcaLayer.constructor | src/pca.cpp:16-19 | stores n1; W and D start empty |
| Pca.PcaLayer.Compute | src/pca.cpp:33-77 | the branch on rows > cols picks L = XᵀX with W = X·V, or L = XXᵀ with W = V; V and D are eigen's kept pairs of L; W has X's rows and between 1 and n1 columns; if eigen aborts, nothing changes |
| Pca.PcaLayer.Project | src/pca.cpp:84-87 | Wᵀ·X through W's view |
| Pca.PcaLayer.Save | src/pca.cpp:94-97 | appends the encoding of W |
| Pca.PcaLayer.Load | src/pca.cpp:104-107 | Matrix::load into W |
| Lda.LdaLayer.constructor | src/feature/lda.cpp:20-24 | stores n1 and n2; W starts empty |
| Lda.LdaLayer.Compute | src/feature/lda.cpp:33-87 | n1 = -1 resolves to cols - c and n2 = -1 to c - 1, other values are kept; exits exactly when the resolved n1 ≤ 0; otherwise it completes iff PCA's eigendecomposition succeeds, S_w of P is invertible and J's eigendecomposition succeeds, and then P = W_pcaᵀ·X, J = S_w⁻¹·S_b of P, W_fld = the kept eigenvectors of J, W = W_pca·W_fld with at most n2 columns; nothing changes unless it completes |
| Lda.LdaLayer.Eigenfaces | src/feature/lda.cpp:52-58 | a PCA layer with n1 on X; its W has X's rows and between 1 and n1 columns; P_pca = Wᵀ·X |
| Lda.LdaLayer.Fisherfaces | src/feature/lda.cpp:60-84 | succeeds iff S_w of P is invertible and J's eigendecomposition succeeds; J = S_w⁻¹·S_b of P; W_fld is eigen's kept eigenvectors of J with n2; W = W_pca·W_fld |
| Lda.LdaLayer.Project | src/feature/lda.cpp:94-97 | Wᵀ·X through W's view |
| Lda.LdaLayer.Save | src/feature/lda.cpp:104-107 | appends the encoding of W |
| Lda.LdaLayer.Load | src/feature/lda.cpp:114-117 | Matrix::load into W |
| Timing.LastRunning | src/util/timer.cpp:41-47 | the reverse scan's stopping point: a running item with no running item after it, or -1 when none runs |
| Timing.RunningCountPositive | src/util/timer.cpp:49 | pop's assertion holds (some item runs) exactly when the running count is positive |
| Timing.RunningCountSnoc | src/util/timer.cpp:26-28 | appending a running item adds one to the running count |
| Timing.RunningCountStop | src/util/timer.cpp:51-52 | giving a running item a duration lowers the running count by one |
| Timing.Timer.constructor | src/util/timer.cpp:13 | the global timer starts with no items at level 0, balanced |
| Timing.Timer.Push | src/util/timer.cpp:20-32 | appends a running item at the current level starting now, goes one level deeper, and keeps the level equal to the running count |
| Timing.Timer.Pop | src/util/timer.cpp:39-57 | completes the last running item, and no other item; returns its duration; goes one level up; keeps the level equal to the running count |
| Timing.Timer.BalancedCanPop | src/util/timer.cpp:49 | at a positive level a balanced timer has a running item, so pop's assertion holds |
| Timing.Timer.MaxWidth | src/util/timer.cpp:66-75 | max_len is the largest 2·level + name length over the items, or 0 when there are none or all are narrower |
| IO.UnsignedOfLittleEndian | src/mlearn/util/iodevice.cpp:31-35 | little-endian digits read back to the number they encode |
| IO.LittleEndianOfUnsigned | src/mlearn/util/iodevice.cpp:66-70 | writing out the number that bytes denote gives the bytes back |
| IO.IntRoundTrip | src/mlearn/util/iodevice.cpp:31-35 | `>>` of the four bytes `<<` writes for an int gives back that int |
| IO.BytesRoundTrip | src/mlearn/util/iodevice.cpp:66-70 | every four bytes encode the int read from them, so the int encoding is a bijection |
| IO.FloatRoundTrip | src/mlearn/util/iodevice.cpp:23-27 | `>>` of the four bytes `<<` writes for a float gives back its bit pattern |
| IO.BoolBytes | src/mlearn/util/iodevice.cpp:15-19 | one byte, nonzero iff the bool is true |
| IO.CString | src/mlearn/util/iodevice.cpp:82 | std::string(buffer) takes the bytes before the first NUL: a prefix, free of NUL, followed by a NUL |
| IO.StringBytes | src/mlearn/util/iodevice.cpp:39-46 | the int \|s\|+1, the characters of s, then a NUL |
| IO.IntAt | src/mlearn/util/iodevice.cpp:66-70 | reads at pos exactly when four bytes remain, and advances the cursor by four |
| IO.FloatAt | src/mlearn/util/iodevice.cpp:58-62 | reads at pos exactly when four bytes remain, and advances the cursor by four |
| IO.BoolAt | src/mlearn/util/iodevice.cpp:50-54 | reads at pos exactly when one byte remains, and advances the cursor by one |
| IO.StringAt | src/mlearn/util/iodevice.cpp:74-84 | defined exactly when the prefix len is positive and len bytes containing a NUL follow; consumes the four prefix bytes plus len; gives the bytes before the first NUL |
| IO.IntAtWritten | src/mlearn/util/iodevice.cpp:31-35 | an int written amid any bytes reads back at its position, and the next read starts right after it |
| IO.FloatAtWritten | src/mlearn/util/iodevice.cpp:23-27 | the same for a float's bit pattern |
| IO.BoolAtWritten | src/mlearn/util/iodevice.cpp:15-19 | the same for a bool |
| IO.StringAtWritten | src/mlearn/util/iodevice.cpp:39-84 | a written string reads back, at its position, as the bytes before the first NUL of s plus the terminator, and consumes exactly what was written |
| IO.StringRoundTrip | src/mlearn/util/iodevice.cpp:39-84 | a string without a NUL reads back unchanged |
| IO.StringWithNulReadsPrefix | src/mlearn/util/iodevice.cpp:82 | a string with a NUL reads back as its prefix before the first NUL |
| IO.Device.WriteBool | src/mlearn/util/iodevice.cpp:15-19 | appends the bool's byte and returns the same device |
| IO.Device.WriteFloat | src/mlearn/util/iodevice.cpp:23-27 | appends the float's four bytes and returns the same device |
| IO.Device.WriteInt | src/mlearn/util/iodevice.cpp:31-35 | appends the int's four bytes and returns the same device |
| IO.Device.WriteString | src/mlearn/util/iodevice.cpp:39-46 | appends the string's encoding (through `<<` for the int) and returns the same device |
| IO.Device.ReadBool | src/mlearn/util/iodevice.cpp:50-54 | reads the bool at the cursor and advances it; returns the same device |
| IO.Device.ReadFloat | src/mlearn/util/iodevice.cpp:58-62 | reads the float at the cursor and advances it; returns the same device |
| IO.Device.ReadInt | src/mlearn/util/iodevice.cpp:66-70 | reads the int at the cursor and advances it; returns the same device |
| IO.Device.ReadString | src/mlearn/util/iodevice.cpp:74-84 | reads the string at the cursor, and leaves the cursor after the prefix and the whole buffer; returns the same device |

## Left out

- GPU support (MAGMA, `gpu_*`, `magma_queue`): only the CPU path is modelled, where the GPU buffer is null.
- LAPACK/BLAS numerics: the model does not compute the values of `sgetrf` and `ssyev`.
  - `Matrices.Matrix.Determinant` and `Matrices.Matrix.Eigen` take those outputs as inputs.
  - The model does not prove the eigensolver's ascending order or LU correctness.
  - `sgemm`, `saxpy` and `sscal` are given their mathematical meaning over `real`.
- These Matrix routines are not modelled: `inverse`, `svd`, `norm`, `random` (needs a random source), `print` and every `log` call (output only), and the destructor (memory management).
- Single-precision rounding: all arithmetic is exact over `real`.
  - `-0.5f`, the `/ 1000.0f` of durations and the float type itself are modelled as reals.
  - A float on an IODevice is its 32-bit pattern.
- `m_copy_classes`, `m_class_means`, `m_class_scatters`, `m_scatter_between`, `m_scatter_within` and the distance functions: their bodies are not part of this model.
  - Lda and Knn take them as parameters.
  - Lda also takes the inverse of S_w as a parameter, together with whether `inverse` succeeds on it. When it does not, `inverse` aborts (`assert(info == 0)`, src/math/matrix.cpp:613 and 618), and the model returns `Aborted`.
  - `Bayes.Predict` takes the class means and inverted scatters as inputs. So the data preparation in BayesLayer::predict (src/classifier/bayes.cpp:44-53), including the loop that inverts each S_i, is not modelled.
- The Timer calls inside PCALayer::compute and LDALayer::compute: the model does not record them in `Timing.Timer`. They are logging only, and the two files use different timer interfaces (a version skew between files).
- Clock readings: time points and the conversion of an interval to seconds are parameters of `Timing.Timer.Push` and `Timing.Timer.Pop`.
- The printed report of timer_print: only its `max_len` computation is modelled.
- `Timing.Timer.Pop`: keeps the level balanced only when the computed duration differs from -1. A duration of exactly -1 would leave the item looking as if it were still running, just as in the source.
- `Timing.Timer.MaxWidth`: computes `2·level + |name|` over unbounded integers. The source's size_t arithmetic and its conversion to int agree with this for realistic sizes.
- `IODevice::read`/`write` and the file streams underneath: the device is a byte sequence with a read cursor.
  - A read of missing bytes, which the stream reports by failing, is excluded by the read methods' preconditions.
  - Matrix and layer files are modelled as a sequence of cells: two int header cells, then one real cell per element. Matrix::save writes raw bytes instead.
- `IO.Device.WriteString`: requires `|s| + 1 < 2³¹`, because the source's `int len = val.size() + 1` overflows beyond that.
- `IO.Device.ReadString`: requires what avoids undefined behaviour in the source: a positive length, and a NUL within the buffer.
- Version skew between files: each file is modelled as written. pca.cpp:52 calls a five-argument `eigen`; this is modelled with the three-argument matrix.cpp:501 semantics.
- `Matrices.Matrix.Load`: a file too short or malformed to hold the matrix is reported as `Malformed` and changes nothing. The stream's behaviour in that case is not modelled.
- `Matrices.Matrix.Eigen`, `Matrices.Matrix.Copy`, `Matrices.Matrix.Determinant`: require at least one column. This is because `Matrix(M, 0, 0)` fails the source's `i < j` assertion.
- `Matrices.Matrix.MeanColumn`, `Matrices.Matrix.MeanRow`: require a non-empty dimension, because the source divides by it (a floating-point division by zero is not modelled).
- `Knn.KnnLayer.Predict`: std::sort is a parameter. Any sort that yields a permutation sorted by distance is allowed, because std::sort is not stable and the order of equal-distance neighbours is unspecified. `Knn.InsertionSort` shows that such a sort exists.
- `Pca.PcaLayer.Compute`, `Lda.LdaLayer.Compute`: the data-set labels `y` and the class count `c` serve only to resolve dimensions and to pass to the scatter routines outside this model.
- `Lda.LdaLayer.Compute`: `this->W`, `pca.W * W_fld` and the other matrix-valued temporaries are by-value copies in C++. In the model they are fresh objects, so aliasing between them is not modelled.

## Findings

| source | as written | input that shows it | evidently intended | confidence | as-written member | corrected member |
|---|---|---|---|---|---|---|
| src/math/matrix.cpp:912-916 | `assign_column(i, B, j)` copies B's first `rows` elements, that is column 0 of B, whatever j is; j is only range-checked | B = [1 2] (one row, two columns), j = 1: column i receives 1 instead of B(0, 1) = 2 | column i becomes column j of B | not executed | Matrices.AssignColumnAsWritten, Matrices.AssignColumnIgnoresJ | Matrices.Matrix.AssignColumn |
