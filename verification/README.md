# Verification of the coursework cores

Dafny models of the parts of this coursework repository that make a promise worth proving, and the
proofs. Each component stands alone; the files are named after what they model.

- **Expressions** (`ListStack`, `Infix`, `InfixToPostfix`, `Meaning`, `Narrowing`, `PostCalculator`,
  `ExpressionTree`): the shunting-yard translation over a linked stack, the postfix evaluator and
  the expression-tree route. The translation is proved correct for every legal printing of every
  tree, and exactly which texts make it pop an empty stack is settled. The evaluator pops into
  `char`; its values are the tree's values computed with narrowed operands, and exactly when these
  are the true ones is settled for every tree whose divisions have operands that fit.
- **AES and DES** (`Galois`, `MixColumns`, `AesTables`, `Aes`, `AesVector`, `Numerals`, `DesTables`,
  `Des`, `DesDigits`, `DesVector`): both ciphers with their tables, key schedules and text
  conversions, after FIPS 197 and FIPS 46-3. Round trips in both directions, DES's complementation
  property, DES on digits instead of bits, and a published example of each cipher proved through the
  key schedule and every round.
- **Job queue** (`JobQueue`, `JobList`): the bounded queue with two condition variables, its
  workers, the boss and the shutdown, as a system of steps at the granularity of locks, waits and
  signals. Any number of workers; a signal may wake more than one thread, and waits may end
  spuriously.
- **Deadlock hunters** (`WaitForGraph`, `DeadlockHunters`): the cycle detector on the edge matrix,
  and the spinning threads with the monitor as a system of steps, for any number of threads and
  resources and any order of locking.
- **Number theory** (`Arith`, `Powers`, `Primes`, `Factoring`, `Euler`, `PrimitiveRoot`, `ElGamal`,
  `Rsa`): trial division, prime factors, totient, the primitive-root test, and ElGamal and RSA
  round trips, resting on Euler's theorem proved here. The RSA primitives are those of sections
  5.1.1 and 5.1.2 of RFC 8017.
- **SJU-CPU** (`SjuCpu`, `SjuPrograms`): the one-fetch and the two-fetch interpreter, exactly when
  they agree, and two machine programs.
- **Text streams** (`Bytes`, `LineSplitter`, `EndFilter`, `EndFilterCuts`, `ChatLog`): the chunked
  line splitter, the end-marker filter and the bounded conversation log with its parser.
- **Algorithms** (`BreadthFirst`, `HybridSort`, `KthSmallest`, `SearchTree`, `Airtel`): traversal by
  distance and in its one order, quicksort with a final insertion sort, selection on a heap with holes, the search tree
  rebalanced at its root, and a minimum-cost table against its recursion.

Where the source loops over variables or changes objects the model is a method or class with
invariants, tied by its contract to a function on values; the properties are lemmas about those
functions. A C fault the source runs into (reading through a null head, a cell never set, an index
outside a string) is a value of the result, so that lemmas can say exactly when it happens.

What the code does and its comments or callers do not say:

- `convToRPNEXP` never writes the terminator of `result` before copying it back; the model's result
  is what was written.
- `des_encrypt` returns a triple, and the script's own call hands that triple to `des_decrypt`; the
  model passes the text.
- Assignment 7 keeps the ciphertext of an earlier key, and accepts messages of p and more; the
  round trip holds exactly below p under the key that made the ciphertext, and when another key
  still decrypts it is settled.
- RSA draws primes up to 300, so texts with code points of n and more do not come back.
- The program that sums 1..n never halts on input 0.
- `BFS` reads a cell of `label` that was never set exactly when the graph is not connected.
- A NUL byte in front of the marker hides it from the client's string search.
- The client filter writes bytes after the marker, or leaves them for the next reply, depending on
  how the reads fell.
- A reply of several lines loses its first lines when only later ones fit in the log, and the parser
  drops lines without a role.
- `airtelDP` gives 0 for a destination before the start, where `rAirtelDC` gives the largest int.

## Model

| member | source | states |
|---|---|---|
| ListStack.Stack.SPush | C++/Datastruct/Stack/ExpressionStack/ListBaseStack.c:20-31 | pushing puts the value on top of exactly the old contents |
| ListStack.Stack.SPop | C++/Datastruct/Stack/ExpressionStack/ListBaseStack.c:33-51 | popping returns the top and leaves the rest; on an empty stack it reports the fault of reading through a null head |
| ListStack.Stack.SPeek | C++/Datastruct/Stack/ExpressionStack/ListBaseStack.c:53-59 | peeking returns the top without changing anything; an empty stack is the exit |
| ListStack.Stack.SIsEmpty | C++/Datastruct/Stack/ExpressionStack/ListBaseStack.c:10-18 | true exactly when nothing is stacked |
| InfixToPostfix.PopToOpening | C++/Datastruct/Stack/ExpressionStack/InfixToPostfix.c:79-88 | moves everything above the nearest opening bracket to the output in popping order and drops the bracket; fails exactly when there is none |
| InfixToPostfix.PopOutranking | C++/Datastruct/Stack/ExpressionStack/InfixToPostfix.c:95-101 | moves exactly the operators that do not rank below the new one |
| InfixToPostfix.PopAll | C++/Datastruct/Stack/ExpressionStack/InfixToPostfix.c:109-111 | moves the whole remaining stack to the output |
| InfixToPostfix.ConvToRPNEXP | C++/Datastruct/Stack/ExpressionStack/InfixToPostfix.c:53-119 | the stack-and-array loop computes the specification function Compile, whose output is never longer than the input |
| InfixToPostfix.WhoPrecOp | C++/Datastruct/Stack/ExpressionStack/InfixToPostfix.c:36-51 | compares the ranks of two operators: negative, zero or positive exactly when the first ranks lower, the same or higher |
| InfixToPostfix.ReadsExpression | C++/Datastruct/Stack/ExpressionStack/InfixToPostfix.c:66-107 | reading any legal printing, whatever follows and whatever weaker operators wait on the stack, writes its postfix form up to a tail of operators still pending |
| InfixToPostfix.CompilesToRpn | C++/Datastruct/Stack/ExpressionStack/InfixToPostfix.c:53-119 | every legal printing of every tree over single digits, with any bracketing that respects precedence and left associativity, compiles to the postfix form of that tree |
| InfixToPostfix.FaultsExactlyWhenOverclosed | C++/Datastruct/Stack/ExpressionStack/InfixToPostfix.c:79-88 | for every input string: the translation pops an empty stack exactly when some prefix closes more brackets than it opens |
| InfixToPostfix.IgnoresOtherMarks | C++/Datastruct/Stack/ExpressionStack/InfixToPostfix.c:73-104 | characters that are no digit, operator or bracket never change the output |
| Infix.NarrowingLosesMultiplesOf256 | C++/Datastruct/Stack/ExpressionStack/PostCalculator.c:13-25 | without division, popping into char changes the value only by multiples of 256 |
| Infix.FittingOperandsKeepTheValue | C++/Datastruct/Stack/ExpressionStack/PostCalculator.c:24-46 | when every operand fits a char, the narrowing evaluator gives the true value (sufficient; `Narrowing.NarrowingKeepsExactly` is exact) |
| Infix.NarrowingShows | C++/Datastruct/Stack/ExpressionStack/PostCalculator.c:24-46 | a concrete expression, 9*9*2+1, on which narrowing gives -93 instead of 163 |
| Meaning.DenotesExactly | C++/Datastruct/Stack/ExpressionStack/PostCalculator.c:24-46 | the value of an expression, with int or with char operands, is the one outcome allowed by a relation that never computes it: differences and sums by adding or taking back, products by repeated addition, quotients by a remainder smaller than the divisor with the sign of the dividend, and each fault when there is no such answer or none of 32 bits |
| Meaning.OperatorsAreUndone | C++/Datastruct/Stack/ExpressionStack/PostCalculator.c:24-46 | where an expression has a value, taking back the right operand gives the left one: v - b = a for sums, v + b = a for differences, v is b times a, and v times b and the remainder make a |
| Narrowing.NarrowingKeepsExactly | C++/Datastruct/Stack/ExpressionStack/PostCalculator.c:13-46 | for every tree whose divisions have operands that fit a char: narrowing keeps the value exactly when, at the root, the whole turns of 256 cancel (sum), are equal (difference), or both factors fit, one is 0 or both are 128 (product); it also keeps a division by zero, and never an overflow |
| Narrowing.OperationKeeps | C++/Datastruct/Stack/ExpressionStack/PostCalculator.c:24-46 | for any two operands: the operation on the narrowed ones gives the true result exactly under that condition |
| PostCalculator.EvalRPNEXP | C++/Datastruct/Stack/ExpressionStack/PostCalculator.c:7-53 | the evaluation loop over the linked stack computes the specification function Run, faults included; what Run gives on compiled text is `PostCalculator.CalculatorIsCorrect` |
| PostCalculator.RunsRpn | C++/Datastruct/Stack/ExpressionStack/PostCalculator.c:14-52 | running the postfix form of any tree, before any further code and on any stack, pushes the tree's value or stops with its fault |
| PostCalculator.EvalInfixExp | C++/Datastruct/Stack/ExpressionStack/infixCalculator.c:7-20 | translates a copy and runs the result |
| PostCalculator.CalculatorIsCorrect | C++/Datastruct/Stack/ExpressionStack/PostCalculator.c:7-53 | compiler correctness: every legal text compiles, never underflows the stack, and evaluates to the one outcome the relation of `Meaning` allows for its tree with char operands; that is the true value whenever the operands fit, and, when those of the divisions do, exactly when narrowing at the root keeps it |
| ExpressionTree.EvaluateExpTree | C++/Datastruct/Tree/ExpressionTree/ExpressionTree.c:39-65 | recursion over the linked nodes gives the value of the tree they represent |
| ExpressionTree.LinkOperands | C++/Datastruct/Tree/ExpressionTree/ExpressionTree.c:25-29 | takes two subtrees off the stack and hangs the first popped on the right, the second on the left |
| ExpressionTree.MakeExpTree | C++/Datastruct/Tree/ExpressionTree/ExpressionTree.c:9-37 | builds freshly allocated nodes that represent the tree of the specification function Build; null exactly when the stack underflows |
| ExpressionTree.BuildsTree | C++/Datastruct/Tree/ExpressionTree/ExpressionTree.c:18-36 | reading the postfix form of any tree pushes that tree |
| ExpressionTree.TreeRouteIsCorrect | C++/Datastruct/Tree/ExpressionTree/ExpressionTree.c:9-65 | compiling, building and evaluating the tree gives the one outcome the relation of `Meaning` allows for it with int operands, and agrees with the stack machine whenever the operands fit a char; when those of the divisions do, exactly when narrowing at the root keeps the value |
| ExpressionTree.TextDeterminesTree | C++/Datastruct/Stack/ExpressionStack/InfixToPostfix.c:53-119 | two trees with the same legal text are equal |
| AesTables.SubInverse | PublicKeyCrypto/PubEnc/AESStandard.py:5-34 | the inverse table undoes the S-box on every byte, in both directions |
| AesTables.BuildInverse | PublicKeyCrypto/PubEnc/AESStandard.py:30-34 | the scatter loop that fills the inverse table leaves in every cell exactly the byte the S-box sends there |
| Galois.GfMult | PublicKeyCrypto/PubEnc/AESStandard.py:74-82 | the eight-step loop computes the product as the sum of the shifted multiples of its first factor |
| Galois.SumXtime | PublicKeyCrypto/PubEnc/AESStandard.py:56-56 | multiplying by x commutes with multiplying by any byte |
| Galois.MulXor | PublicKeyCrypto/PubEnc/AESStandard.py:74-82 | multiplication distributes over xor in the first factor |
| Galois.MulXorRight | PublicKeyCrypto/PubEnc/AESStandard.py:74-82 | multiplication distributes over xor in the second factor |
| Galois.MulByConstants | PublicKeyCrypto/PubEnc/AESStandard.py:74-91 | multiplying by 1, 2, 9, 11, 13 and 14 agrees with the chains of xtime |
| Galois.LeftUnit | PublicKeyCrypto/PubEnc/AESStandard.py:74-82 | one is a unit of the multiplication |
| MixColumns.MixIsLinear | PublicKeyCrypto/PubEnc/AESStandard.py:58-65 | mixing a column is linear over xor |
| MixColumns.InvMixIsLinear | PublicKeyCrypto/PubEnc/AESStandard.py:84-93 | inverse mixing is linear over xor |
| MixColumns.MixingIsInvertible | PublicKeyCrypto/PubEnc/AESStandard.py:58-93 | inverse mixing undoes mixing and mixing undoes inverse mixing, for every column |
| Aes.SubBytesInverse | PublicKeyCrypto/PubEnc/AESStandard.py:52-53 | substitution and inverse substitution undo each other on every state |
| Aes.ShiftRowsInverse | PublicKeyCrypto/PubEnc/AESStandard.py:54-55 | the row shifts undo each other |
| Aes.MixInverse | PublicKeyCrypto/PubEnc/AESStandard.py:67-93 | the column mixings undo each other on every state |
| Aes.AddRoundKeyInverse | PublicKeyCrypto/PubEnc/AESStandard.py:95-101 | adding a round key twice changes nothing |
| Aes.AddRoundKeyAddsWords | PublicKeyCrypto/PubEnc/AESStandard.py:95-101 | adding a round key changes column c by exactly word 4*rnd+c of the schedule |
| Aes.RoundByColumns | PublicKeyCrypto/PubEnc/AESStandard.py:110-121 | for every state: column c after a round is the diagonal starting at its top, substituted, mixed except in the last round, plus word 4*rnd+c |
| Aes.StateBytesInverse | PublicKeyCrypto/PubEnc/AESStandard.py:103-108 | bytes and state convert into each other without loss |
| Aes.AesEncrypt | PublicKeyCrypto/PubEnc/AESStandard.py:110-121 | the round loop computes the specification function Encrypt, whose rounds are pinned by `Aes.RoundByColumns` and `AesVector.CipherExample`; a block under 16 bytes is an index error |
| Aes.AesDecrypt | PublicKeyCrypto/PubEnc/AESStandard.py:123-134 | the round loop computes the specification function Decrypt, the inverse of Encrypt; a block under 16 bytes is an index error |
| Aes.UndoesRounds | PublicKeyCrypto/PubEnc/AESStandard.py:125-129 | after any number of inverse rounds decryption has recovered the encryption's state before the matching round |
| Aes.DecryptUndoesEncrypt | PublicKeyCrypto/PubEnc/AESStandard.py:110-134 | for every block and every key schedule, decrypting an encryption gives the block back |
| Aes.EncryptUndoesDecrypt | PublicKeyCrypto/PubEnc/AESStandard.py:110-134 | and encrypting a decryption gives the ciphertext back |
| AesVector.ExpandsToWords | PublicKeyCrypto/PubEnc/AESStandard.py:36-50 | the expanded key of FIPS 197, Appendix C.1, word by word |
| AesVector.CipherExample | PublicKeyCrypto/PubEnc/AESStandard.py:36-134 | the plaintext of FIPS 197, Appendix C.1, under any schedule KeyExpansion gives for its key, encrypts to the published ciphertext, and that decrypts to it |
| Aes.KeyExpansion | PublicKeyCrypto/PubEnc/AESStandard.py:36-50 | the loop produces 44 four-byte words satisfying the word recurrence |
| Aes.RconIsThePowersOfX | PublicKeyCrypto/PubEnc/AESStandard.py:23-27 | the round constants are the successive powers of x in GF(2^8) |
| Aes.ScheduleDeterminesKey | PublicKeyCrypto/PubEnc/AESStandard.py:36-50 | two keys whose schedules agree on any four consecutive words have the same first 16 bytes: the expansion can be run backwards |
| DesTables.InversePositions | PublicKeyCrypto/PubEnc/DEStandard.py:5-27 | the initial and the final permutation table are inverse to each other |
| Des.GenerateRoundKeys | PublicKeyCrypto/PubEnc/DEStandard.py:153-176 | the rotating loop yields 16 keys, each the selection of the accumulated rotation |
| Des.SelectsByNumber | PublicKeyCrypto/PubEnc/DEStandard.py:178-191 | for every block read as the number x, box i gives the entry in row 2*(x/32) + x mod 2 and column (x mod 32)/2 |
| DesDigits.FeistelOnDigits | PublicKeyCrypto/PubEnc/DEStandard.py:193-207 | on a half of eight digits and a round key of eight groups the round function works digit by digit: each group is a digit between the bits beside it, and the digit chooses the column |
| DesDigits.DesOnDigits | PublicKeyCrypto/PubEnc/DEStandard.py:209-250 | for every hexadecimal text and key of at least 16 digits, the cipher computed on digits, with the tables IP, PC_1, PC_2, P and FP on digits, is the cipher on bits |
| DesVector.DesExample | PublicKeyCrypto/PubEnc/DEStandard.py:209-283 | 0123456789ABCDEF under the key 133457799BBCDFF1 encrypts to 85E813540F0AB405, through the key schedule and all rounds, and that decrypts to it |
| Des.RoundsRetrace | PublicKeyCrypto/PubEnc/DEStandard.py:264-272 | in any Feistel network, of any number of rounds, width of halves and round function, running the rounds with reversed keys on swapped halves passes through the states of the forward run in reverse |
| Des.PermutationsCancel | PublicKeyCrypto/PubEnc/DEStandard.py:214-246 | the two outer permutations cancel on every 64-bit block |
| Des.CryptInverts | PublicKeyCrypto/PubEnc/DEStandard.py:209-283 | for every block and every 16 round keys, the cipher with reversed keys undoes the cipher |
| Des.HexToBinIsFixed | PublicKeyCrypto/PubEnc/DEStandard.py:137-140 | hexadecimal text becomes its number in exactly four bits a digit |
| Des.BinToHexToBin | PublicKeyCrypto/PubEnc/DEStandard.py:137-143 | bits to hexadecimal and back is lossless |
| Des.HexToBinToHex | PublicKeyCrypto/PubEnc/DEStandard.py:137-143 | hexadecimal to bits and back gives the upper-case text |
| Des.DesEncrypt | PublicKeyCrypto/PubEnc/DEStandard.py:209-250 | the loop over text computes the specification function, pinned by `DesDigits.DesOnDigits` and `DesVector.DesExample`; text that is not hexadecimal and inputs under 16 digits are its two errors |
| Des.DesDecrypt | PublicKeyCrypto/PubEnc/DEStandard.py:254-283 | the same, with the keys reversed |
| Des.DecryptUndoesEncrypt | PublicKeyCrypto/PubEnc/DEStandard.py:209-283 | decrypting the encryption of any hexadecimal text of at least 16 digits gives its first 16 digits in upper case |
| Des.FeistelComplement | PublicKeyCrypto/PubEnc/DEStandard.py:193-207 | complementing both arguments of the round function leaves its value |
| Des.KeyHalvesComplement | PublicKeyCrypto/PubEnc/DEStandard.py:157-168 | complementing the key complements both key halves in every round |
| Des.EncryptionComplements | PublicKeyCrypto/PubEnc/DEStandard.py:209-250 | complementing key and block complements the ciphertext |
| JobList.List.Append | aisys/thread/mini_shell_game_queue.c:65-73 | linking a job at the tail appends it to the sequence of jobs |
| JobList.List.Take | aisys/thread/mini_shell_game_queue.c:95-99 | unlinking the head returns the first job and leaves the rest, clearing the tail when none is left |
| JobQueue.Enqueue | aisys/thread/mini_shell_game_queue.c:65-73 | appending to the linked list is what the step that queues a job does to the queue |
| JobQueue.Dequeue | aisys/thread/mini_shell_game_queue.c:95-106 | taking from the linked list is what a worker past the wait loop does to the queue, and its answer is the job the worker carries on |
| JobQueue.NextKeepsInv | aisys/thread/mini_shell_game_queue.c:55-156 | every step of every thread, spurious wake-ups included, keeps locking, waking, ordering, placing and combat invariants |
| JobQueue.SignalWakes | aisys/thread/mini_shell_game_queue.c:75-78 | after a job is queued some worker that can serve it is awake |
| JobQueue.SafeInEveryRun | aisys/thread/mini_shell_game_queue.c:55-156 | in every state of every run: the queue holds at most 8 jobs, a non-empty queue has a live worker that is not waiting, a blocked producer means a full queue, jobs leave in the order they were sent, 0 < hp <= 1000, and the damage applied is 1000 per defeat plus the health missing plus the surplus; when all workers are joined every job was applied or missed exactly once |
| JobQueue.NoDeadlock | aisys/thread/mini_shell_game_queue.c:55-156 | in every reachable state some thread can go on by itself, unless everybody has finished or idles by design |
| JobQueue.StepsAreBounded | aisys/thread/mini_shell_game_queue.c:109-156 | between two commands, and after shutdown, every step shrinks a measure: no run goes round for ever |
| JobQueue.ShutdownCompletes | aisys/thread/mini_shell_game_queue.c:320-337 | after running is cleared every run is of bounded length, and ends with another step possible or with all workers joined |
| JobQueue.AGameCanFinish | aisys/thread/mini_shell_game_queue.c:55-156 | a run exists from the start in which a job of any damage is sent, taken and applied and the game is shut down, so the statements about runs speak of something |
| JobQueue.RestingMeansFinished | aisys/thread/mini_shell_game_queue.c:320-337 | after shutdown nothing rests before all workers are joined |
| WaitForGraph.DfsCycle | aisys/deadlock_hunters.c:48-64 | the search over visited and stack arrays: a reported cycle exists; otherwise everything it reached is settled |
| WaitForGraph.DetectCycle | aisys/deadlock_hunters.c:66-75 | for any number of threads, returns true exactly when the graph has a cycle |
| WaitForGraph.SettledHasNoCycle | aisys/deadlock_hunters.c:62-75 | a graph whose vertices were all finished without a back edge has no cycle |
| DeadlockHunters.NextKeepsInv | aisys/deadlock_hunters.c:77-141 | every step keeps: an edge from i to j means i spins on a resource j owns |
| DeadlockHunters.EdgesGrow | aisys/deadlock_hunters.c:119-133 | no step ever removes an edge: the edges a thread clears on success were never there |
| DeadlockHunters.CycleIsDeadlock | aisys/deadlock_hunters.c:119-141 | the threads on a cycle wait only for each other |
| DeadlockHunters.DeadlockLasts | aisys/deadlock_hunters.c:119-141 | a deadlocked set stays deadlocked under every step, and none of its threads gets further |
| DeadlockHunters.DetectedCycleIsPermanent | aisys/deadlock_hunters.c:66-141 | a cycle seen in any state of a run is a deadlock in every later state |
| DeadlockHunters.ReportIsReal | aisys/deadlock_hunters.c:98-112 | when the monitor ends the program some threads really are deadlocked |
| DeadlockHunters.StartIsKept | aisys/deadlock_hunters.c:86-98 | once a cycle is seen its starting time stays, and the report comes at the first look at least five seconds later |
| DeadlockHunters.AttemptRecordsEdge | aisys/deadlock_hunters.c:134-139 | a failed try is followed by reading the owner as exactly the holder once the holder has written label and index, and by another try otherwise; the edge then added leads to the holder |
| DeadlockHunters.WaitingHolderIsPublished | aisys/deadlock_hunters.c:126-139 | a holder that itself waits has written its label and index, so a wait for it will be recorded |
| DeadlockHunters.DeadlockIsDetected | aisys/deadlock_hunters.c:66-139 | once every thread of a deadlock has recorded its wait the graph has a cycle |
| DeadlockHunters.DeadlockShowsInThreeTurns | aisys/deadlock_hunters.c:66-141 | in every run: once each thread of a deadlock has taken three more steps, with any steps of others between, the graph has a cycle |
| DeadlockHunters.TwoLooksReport | aisys/deadlock_hunters.c:77-112 | in every run: a look of the monitor at a cycle, and another at least five seconds later, end in the report |
| DeadlockHunters.DeadlockIsReported | aisys/deadlock_hunters.c:66-141 | together: a deadlock whose threads have taken three more steps is reported by the second of two such looks |
| DeadlockHunters.FreeResourcesCanBeAcquired | aisys/deadlock_hunters.c:124-133 | from every state in which a thread tries a free resource four steps make it the owner |
| DeadlockHunters.HeldResourcesAreRecorded | aisys/deadlock_hunters.c:134-138 | from every state in which a thread tries a held resource three steps record its wait and change nothing else |
| DeadlockHunters.HuntersCanDeadlock | aisys/deadlock_hunters.c:144-177 | the program's two threads, taking A then B and B then A, can deadlock and be ended by the monitor, whatever the time |
| DeadlockHunters.OrderedLockingNeverDeadlocks | aisys/deadlock_hunters.c:144-161 | when all threads take their resources in one common order no cycle and no report ever occurs |
| Primes.Egcd | PublicKeyCrypto/cipher/hill.py:5-11 | the coefficients satisfy the Bezout identity, and the common divisor is positive |
| Primes.ModInvIsInverse | PublicKeyCrypto/cipher/hill.py:39-45 | an inverse is returned exactly for coprime arguments, and it is one |
| Factoring.IsPrime | PublicKeyCrypto/Elgamal.py:7-19 | trial division on the 6k-1, 6k+1 wheel decides primality of every integer |
| Factoring.StripFactor | PublicKeyCrypto/Elgamal.py:26-28 | stripping a prime leaves exactly the other prime factors |
| Factoring.PrimeFactors | PublicKeyCrypto/Elgamal.py:35-46 | returns exactly the prime divisors, for every n >= 1 |
| Factoring.TotientStep | PublicKeyCrypto/Elgamal.py:25-30 | subtracting the quotient by a new prime divisor counts the numbers still free of all primes met so far |
| Factoring.EulerPhi | PublicKeyCrypto/Elgamal.py:22-33 | for every n >= 1 returns how many of 1..n are coprime to n |
| Factoring.TotientOfPrime | PublicKeyCrypto/Elgamal.py:22-33 | the totient of a prime p is p - 1 |
| Euler.EulerTheorem | PublicKeyCrypto/Elgamal.py:48-56 | g to the totient of n is 1 modulo n for every g coprime to n |
| Euler.Fermat | PublicKeyCrypto/Public Key Cryptography Assignment 7.py:55-55 | Fermat's little theorem, on which decryption by exponent rests |
| PrimitiveRoot.SmallOrderIsExposed | PublicKeyCrypto/Elgamal.py:53-55 | if any power below the totient is 1 then the test fails at some prime factor of the totient |
| PrimitiveRoot.IsPrimitiveRoot | PublicKeyCrypto/Elgamal.py:49-56 | for every g and every modulus: true exactly when 1 < g < p and the powers of g cover every number coprime to p |
| PrimitiveRoot.GeneratesPrimeField | PublicKeyCrypto/Elgamal.py:49-56 | for a prime modulus that is every number from 1 to p - 1 |
| ElGamal.InverseDecrypts | PublicKeyCrypto/Elgamal.py:59-79 | for every prime, generator, key and draw: the public key and the ciphertext are the residues they should be, and decryption by modular inverse gives the message modulo p |
| ElGamal.EncryptionIs | PublicKeyCrypto/Elgamal.py:66-70 | the two parts of a ciphertext are the residues of g^k and of m * y^k, by divisibility: p divides the difference |
| ElGamal.ExponentDecrypts | PublicKeyCrypto/Public Key Cryptography Assignment 7.py:34-56 | the ciphertext being such a pair, decryption by exponent gives the message modulo p, agrees with decryption by inverse, and returns the message itself exactly when 0 <= m < p |
| ElGamal.DecryptsToMessageExactly | PublicKeyCrypto/Public Key Cryptography Assignment 7.py:49-56 | for any pair c1, c2 and any prime key, whoever made the pair: decryption gives m exactly when 0 <= m < p and c2 is m times the power of c1, or, when p divides c1, m is 0 |
| ElGamal.OtherKeyDecryptsExactly | PublicKeyCrypto/Public Key Cryptography Assignment 7.py:34-56 | a ciphertext decrypts to its message modulo p under another exponent of the same modulus exactly when the message is 0 modulo p or c1 has equal powers under both exponents |
| ElGamal.ElgParams.GenerateElgParams | PublicKeyCrypto/Public Key Cryptography Assignment 7.py:11-32 | stores a fresh key; a ciphertext made with the old one stays |
| ElGamal.ElgParams.EncryptElg | PublicKeyCrypto/Public Key Cryptography Assignment 7.py:34-47 | stores the pair of residues of g^k and m * e^k under the current key; without a key nothing changes |
| ElGamal.ElgParams.DecryptElg | PublicKeyCrypto/Public Key Cryptography Assignment 7.py:49-56 | asks to encrypt first when there is no ciphertext; under the key that made the ciphertext it returns the message modulo p, which is the message exactly when 0 <= m < p; under another key of the same modulus it returns the message exactly when also m is 0 or c1 has equal powers under both exponents; under a key of another modulus exactly when 0 <= m < p and the second part of the ciphertext is m times the power of c1 (or both m and c1 vanish modulo p) |
| ElGamal.StaleCiphertext | PublicKeyCrypto/Public Key Cryptography Assignment 7.py:21-21 | a concrete ciphertext kept across key generation that no longer decrypts; `ElGamal.OtherKeyDecryptsExactly` says which do |
| Rsa.F4IsPrime | PublicKeyCrypto/RSA.py:19-19 | 65537 is prime, from the orders of two modulo its possible divisors |
| Rsa.ChooseExponent | PublicKeyCrypto/RSA.py:19-24 | the exponent is a prime not dividing phi: 65537 unless that divides phi, and then the first odd prime that does not; the fallback search always succeeds |
| Rsa.GenerateKeys | PublicKeyCrypto/RSA.py:12-26 | for all distinct primes the private exponent exists and inverts the public one; for primes from 100 to 300 the public exponent is 65537 |
| Rsa.CodePointReturns | PublicKeyCrypto/RSA.py:28-34 | raising to one exponent and then the other returns every number modulo n, also when it shares a factor with n |
| Rsa.RoundTrip | PublicKeyCrypto/RSA.py:28-34 | encryption and decryption give the representatives of the e-th and d-th powers modulo n, by divisibility, and decrypting an encryption returns the text exactly when every code point is below n |
| SjuCpu.Machine.InstructionFetch | C++/ComputerArchitecture/Mission4/Mission4-2.c:79-85 | fetches the instruction at PC and advances PC and clock |
| SjuCpu.Machine.Execution | C++/ComputerArchitecture/Mission4/Mission4-2.c:87-177 | executing on registers and memory in place is the specification function Execute |
| SjuCpu.Machine.OneFetchTurn | C++/ComputerArchitecture/Mission4/Mission4-2.c:68-71 | one turn of the one-fetch machine |
| SjuCpu.Machine.TwoFetchTurn | C++/ComputerArchitecture/Mission4/Mission4-3.c:83-91 | one turn of the two-fetch machine: both fetches come before both executions |
| SjuCpu.WordSplits | C++/ComputerArchitecture/Mission4/Mission4-2.c:87-177 | a word is its opcode times 100 plus its address, both with its sign and the address below 100 |
| SjuCpu.FetchCommutes | C++/ComputerArchitecture/Mission4/Mission4-3.c:98-157 | an instruction that neither halts nor jumps does not notice a second fetch |
| SjuCpu.RoundIsTwoSteps | C++/ComputerArchitecture/Mission4/Mission4-3.c:83-91 | without a hazard one turn of the two-fetch machine is two turns of the one-fetch machine, from every state (sufficient; `SjuCpu.RoundIsTwoStepsExactly` is exact) |
| SjuCpu.RoundIsTwoStepsExactly | C++/ComputerArchitecture/Mission4/Mission4-3.c:83-199 | from every state: one two-fetch turn equals two one-fetch turns exactly when the first instruction does not halt, a taken branch in it is made up for by a jump of one of the two words gone on with, and a word it stores into the second slot executes like the word fetched from there |
| SjuCpu.HaltCostsAFetch | C++/ComputerArchitecture/Mission4/Mission4-3.c:128-132 | from every state with a halt in the first slot both machines halt alike but for PC and clock, which are one higher on the two-fetch one |
| SjuCpu.BranchNeedsAnotherJump | C++/ComputerArchitecture/Mission4/Mission4-3.c:145-157 | from every state with a taken branch in the first slot the machines part unless the second word or the word at the target jumps |
| SjuCpu.SafeRunsAgree | C++/ComputerArchitecture/Mission4/Mission4-3.c:83-199 | any number of turns, each meeting that condition, give the same memory, AC, PC, clock, input and output as twice as many single turns |
| SjuCpu.StayingTogetherMeansSafe | C++/ComputerArchitecture/Mission4/Mission4-3.c:83-199 | and only such runs do: if after every turn the two machines are in the same state, every turn met the condition |
| SjuCpu.FirstSlotHalt | C++/ComputerArchitecture/Mission4/Mission4-3.c:128-132 | a halt in the first slot ends both machines with the clock one higher on the two-fetch one |
| SjuPrograms.LowerTurn | C++/ComputerArchitecture/Mission3/Mission3-3.asm:6-14 | one turn of the loop above the second input takes 9 instructions |
| SjuPrograms.UpperTurn | C++/ComputerArchitecture/Mission3/Mission3-3.asm:6-23 | one turn of the loop below the second input takes 11 instructions |
| SjuPrograms.RangeProgramSums | C++/ComputerArchitecture/Mission3/Mission3-3.asm:1-27 | for every two integers the program halts, after exactly 12+9k or 12+11k instructions, with the sum of all integers between them as its only output |
| SjuPrograms.CountProgramSums | C++/ComputerArchitecture/Mission3/Mission3-2.asm:1-19 | for every n >= 1 the program halts with output n(n+1)/2 and clock exactly 8n+1 |
| SjuPrograms.CountProgramRejects | C++/ComputerArchitecture/Mission3/Mission3-2.asm:1-7 | for every negative input it halts after 7 instructions with output -1 |
| SjuPrograms.CountProgramHalts | C++/ComputerArchitecture/Mission3/Mission3-2.asm:1-19 | it halts exactly when the input is not 0 |
| BreadthFirst.Graph.AddEdge | C++/Algorithm/Assignment/Assignment3-2.c:31-34 | joins the two vertices in both directions and nothing else; weight 0 parts them, and the unused vertex 0 joins nothing |
| BreadthFirst.Graph.Labelled | C++/Algorithm/Assignment/Assignment3-2.c:53-56 | tells whether a vertex has been labelled |
| BreadthFirst.NearerIsEarlier | C++/Algorithm/Assignment/Assignment3-2.c:46-76 | every vertex with a walk shorter than the level of the vertex being expanded was labelled before it |
| BreadthFirst.NewLabel | C++/Algorithm/Assignment/Assignment3-2.c:51-72 | a newly labelled neighbour is exactly one edge further from the start, and there is room for it |
| BreadthFirst.NewLabelInOrder | C++/Algorithm/Assignment/Assignment3-2.c:49-72 | a label added while scanning the neighbours upwards is a child of the vertex being expanded and keeps the order |
| BreadthFirst.OrderDeterminesTheTraversal | C++/Algorithm/Assignment/Assignment3-2.c:39-78 | two orderings of the same vertices from the same start, each in the order of parents and numbers, are equal |
| BreadthFirst.LabelsFit | C++/Algorithm/Assignment/Assignment3-2.c:86-87 | distinct vertices never outgrow the n cells, and n of them are all vertices |
| BreadthFirst.ClosedLabelsAreTheReachable | C++/Algorithm/Assignment/Assignment3-2.c:46-77 | when every label is expanded the labels are exactly the reachable vertices |
| BreadthFirst.Graph.BFS | C++/Algorithm/Assignment/Assignment3-2.c:39-78 | an unset cell is read exactly when some vertex is unreachable, and then the labels are the reachable ones; otherwise the labels are a finished traversal; in both cases they stand in the order of their parents and, under one parent, of their numbers |
| BreadthFirst.TraversalIsByDistance | C++/Algorithm/Assignment/Assignment3-2.c:39-78 | a finished traversal starts at the start, lists every vertex once, by non-decreasing true distance, and is the only sequence of all vertices from that start in the order of parents and numbers |
| HybridSort.Sorter.FindIndexOfMedianOfThree | C++/Algorithm/Assignment/Assignment2.c:21-29 | returns the first of the three indices that holds a median of the three values |
| HybridSort.Sorter.FindPivot | C++/Algorithm/Assignment/Assignment2.c:31-60 | for each of the four modes and any random numbers: the last place, the first median of first, middle and last, the place drawn, or the first median of three places drawn |
| HybridSort.Sorter.InPlacePartition | C++/Algorithm/Assignment/Assignment2.c:61-94 | the range is rearranged so that the chosen pivot stands at the returned place, nothing before it exceeds it and everything after it does |
| HybridSort.Sorter.RQuickSort | C++/Algorithm/Assignment/Assignment2.c:98-113 | the range is rearranged into blocks of at most limit elements, separated by elements in their places; a longer range has the pivot of its mode in its place |
| HybridSort.OrderBreaksOnlyNearby | C++/Algorithm/Assignment/Assignment2.c:98-113 | elements limit or more apart are in order |
| HybridSort.NearlySortedHasFewInversions | C++/Algorithm/Assignment/Assignment2.c:116-127 | a sequence in which elements limit or more apart are in order has at most n(limit-1) inversions |
| HybridSort.Sorter.InsertionSort | C++/Algorithm/Assignment/Assignment2.c:116-127 | sorts a permutation, with exactly as many exchanges as there are inversions |
| HybridSort.Sorter.QuickSort | C++/Algorithm/Assignment/Assignment2.c:129-145 | for every array, pivot mode and limit >= 1: sorts a permutation, with at most n(limit-1) exchanges in the insertion sort |
| KthSmallest.MovedUp | C++/Algorithm/Assignment/scode.c:38-41 | moving the smaller child up and repairing its subtree makes a heap of the whole subtree with no smaller values |
| KthSmallest.DownHeap | C++/Algorithm/Assignment/scode.c:23-42 | given heaps below, makes a heap of the subtree, keeps the values and touches nothing else |
| KthSmallest.RBuildHeap | C++/Algorithm/Assignment/scode.c:44-53 | makes a heap of the subtree, keeps the values and touches nothing else |
| KthSmallest.ListHeap | C++/Algorithm/Assignment/scode.c:54-71 | fills the hole: the value there is gone, the bound plus one has come, and below is a heap of no smaller values |
| KthSmallest.PopStep | C++/Algorithm/Assignment/scode.c:74-77 | each pop takes the least element left and adds one copy of the bound plus one |
| KthSmallest.PopHeap | C++/Algorithm/Assignment/scode.c:72-79 | after k-1 pops the root is the k-th smallest element, or the bound plus one when k exceeds n |
| KthSmallest.FindKthSmallest | C++/Algorithm/Assignment/scode.c:81-93 | returns the k-th smallest of L[1..n] for every k from 1 to n when L[0] bounds them, leaving L unchanged; the least for smaller k, L[0]+1 for larger k |
| KthSmallest.KthIsInItsSortedPlace | C++/Algorithm/Assignment/scode.c:81-93 | the k-th smallest, defined by counting, is the element at place k of any sorted arrangement |
| SearchTree.RebalanceKeepsTheOrder | C++/Datastruct/Searching/AVLTree/AVLRebalance.c:78-104 | rebalancing keeps the in-order sequence of every tree; no rotation goes through a missing child |
| SearchTree.RebalanceLevelsTheRoot | C++/Datastruct/Searching/AVLTree/AVLRebalance.c:78-104 | a root out of balance by two over a balanced child becomes balanced |
| SearchTree.RebalancePromotes | C++/Datastruct/Searching/AVLTree/AVLRebalance.c:78-104 | of a root off by two or more the heavier child comes to the root if its outer side is higher, else its inner child; otherwise nothing turns |
| SearchTree.GetHeight | C++/Datastruct/Searching/AVLTree/AVLRebalance.c:5-22 | the height of the linked tree |
| SearchTree.RotateLL | C++/Datastruct/Searching/AVLTree/AVLRebalance.c:33-44 | relinks two nodes into the tree turned right, using the same nodes once each |
| SearchTree.RotateRR | C++/Datastruct/Searching/AVLTree/AVLRebalance.c:46-55 | relinks two nodes into the tree turned left |
| SearchTree.RotateLR | C++/Datastruct/Searching/AVLTree/AVLRebalance.c:57-65 | turns the left child left, then the tree right |
| SearchTree.RotateRL | C++/Datastruct/Searching/AVLTree/AVLRebalance.c:68-76 | turns the right child right, then the tree left |
| SearchTree.Rebalance | C++/Datastruct/Searching/AVLTree/AVLRebalance.c:78-104 | relinks the nodes into the rebalanced tree, whatever tree it is given |
| SearchTree.SearchIsMembership | C++/Datastruct/Searching/AVLTree/BinarySearchTree3.c:67-83 | in a search tree the search path meets a key exactly when the tree holds it |
| SearchTree.BSTSearch | C++/Datastruct/Searching/AVLTree/BinarySearchTree3.c:67-83 | returns a node with the key exactly when the search path meets it, and null otherwise |
| SearchTree.InsertAddsTheKey | C++/Datastruct/Searching/AVLTree/BinarySearchTree3.c:18-64 | insertion keeps the tree a duplicate-free search tree and adds exactly the key |
| SearchTree.HangingAttaches | C++/Datastruct/Searching/AVLTree/BinarySearchTree3.c:52-57 | one pointer written at the end of the search path attaches the new node and leaves every other link of the tree |
| SearchTree.Descend | C++/Datastruct/Searching/AVLTree/BinarySearchTree3.c:26-44 | the walk ends at the key, or at the node it belongs under, whose link there is empty |
| SearchTree.BSTInsert | C++/Datastruct/Searching/AVLTree/BinarySearchTree3.c:18-64 | relinks the nodes into the tree with the key inserted and the root rebalanced; an existing key changes nothing |
| SearchTree.AnyRunGivesASearchTree | C++/Datastruct/Searching/AVLTree/BinarySearchTree3.c:18-83 | after any run of insertions the tree is a duplicate-free search tree of exactly the inserted keys, and searching it is membership among them |
| Airtel.RAirtelDC | C++/Algorithm/Assignment/Assignment5.c:27-46 | the recursion with its loop computes the specification function Cheapest |
| Airtel.AirtelDP | C++/Algorithm/Assignment/Assignment5.c:50-70 | the table holds the cheapest price of every stop from s to d; the result agrees with the recursion exactly when s <= d |
| Airtel.NoItineraryIsCheaper | C++/Algorithm/Assignment/Assignment5.c:27-46 | no increasing itinerary from s to d costs less, for any fares and hotel prices |
| Airtel.SomeItineraryIsCheapest | C++/Algorithm/Assignment/Assignment5.c:27-46 | when the direct fares are ints some itinerary costs exactly that |
| LineSplitter.LinesRebuild | aisys/socket/ai_helper_chat_stream_socket_sk.c:269-297 | lines and tail rebuild the bytes and contain no newline |
| LineSplitter.SplittingIsUnique | aisys/socket/ai_helper_chat_stream_socket_sk.c:269-297 | there is only one way to split bytes into terminated lines and an unterminated rest |
| LineSplitter.SplitInTwo | aisys/socket/ai_helper_chat_stream_socket_sk.c:254-309 | splitting a prefix, then its tail with what follows, splits the whole |
| LineSplitter.ReplyIsWholeExactlyWhenItFits | aisys/socket/ai_helper_chat_stream_socket_sk.c:284-288 | the reply buffer holds the whole reply exactly when the reply and its terminator fit |
| LineSplitter.ChatStream.Deliver | aisys/socket/ai_helper_chat_stream_socket_sk.c:281-292 | decodes one line, keeps the text if it fits, and hands it on in any case |
| LineSplitter.ChatStream.StreamCallback | aisys/socket/ai_helper_chat_stream_socket_sk.c:254-309 | delivers the texts of exactly the non-empty lines the chunk completes, in order, and keeps exactly the unterminated tail; a failed allocation or an earlier error delivers nothing and keeps everything |
| LineSplitter.ChatStream.CallChatApi | aisys/socket/ai_helper_chat_stream_socket_sk.c:445-497 | for every way of cutting the stream into chunks: delivers the texts of exactly the non-empty lines of what arrived before the first failed allocation, the unterminated last one included, and fails exactly on a failed transfer, a failed allocation or an empty reply |
| EndFilter.BufferSuffices | aisys/socket/mini_shell_ai_socket_sk.c:104-107 | with eight bytes held back, searching the buffer finds the first marker of everything received |
| EndFilter.FilterRemovesTheMarker | aisys/socket/mini_shell_ai_socket_sk.c:70-128 | whatever the read boundaries, a reply with no NUL byte before its first marker, or with no marker, is written in full minus that marker |
| EndFilter.ReceivedIsAPrefix | aisys/socket/mini_shell_ai_socket_sk.c:70-119 | reading stops with the first read that completes a marker |
| EndFilter.ReplyIsShown | aisys/socket/mini_shell_ai_socket_sk.c:70-128 | of bytes after the marker exactly those are written that came with the read completing it, the first read after which the whole marker has arrived |
| EndFilter.ReplyEndingWithTheMarkerIsShownExactly | aisys/socket/mini_shell_ai_socket_sk.c:70-128 | when the marker ends the reply exactly the bytes before it are written, if no NUL is among them |
| EndFilter.BoundariesMatterAfterTheMarker | aisys/socket/mini_shell_ai_socket_sk.c:109-119 | bytes after the marker are written or left for the next reply depending on the read boundaries |
| EndFilter.NulHidesTheMarker | aisys/socket/mini_shell_ai_socket_sk.c:106-107 | and only then: every reply with a NUL byte before its first marker, read at once, is written with the marker in it |
| EndFilterCuts.FilteredRightExactly | aisys/socket/mini_shell_ai_socket_sk.c:70-128 | for the reads the client really makes, of 1 to 1023 bytes: every cut of a reply is filtered right exactly when no NUL byte is among the 1087 bytes before its first marker |
| EndFilterCuts.LateCutFails | aisys/socket/mini_shell_ai_socket_sk.c:90-107 | a NUL byte among those bytes is seen by the cut whose last read brings the marker as late as it can come |
| EndFilter.OverflowNeverFires | aisys/socket/mini_shell_ai_socket_sk.c:90-98 | at most 73 bytes are held between reads, so the overflow branch is never taken |
| EndFilter.Filter.Receive | aisys/socket/mini_shell_ai_socket_sk.c:90-127 | one read handled in place, for any buffer contents, is the specification step, overflow branch included |
| EndFilter.Filter.ShowReply | aisys/socket/mini_shell_ai_socket_sk.c:70-133 | the loop writes the specified bytes of the reply and then a newline |
| ChatLog.Log.Append | aisys/socket/ai_helper_chat_stream_multiuser_sk.c:329-361 | evicts lines from the front in place until the record fits, then appends it and a terminator |
| ChatLog.AppendingEvictsRecords | aisys/socket/ai_helper_chat_stream_multiuser_sk.c:342-356 | for one-line texts evicting up to newlines evicts whole records |
| ChatLog.RetainedIsTheLongestSuffix | aisys/socket/ai_helper_chat_stream_multiuser_sk.c:342-356 | what is retained is the longest suffix of whole records below the capacity |
| ChatLog.LogHoldsTheMostLines | aisys/socket/ai_helper_chat_stream_multiuser_sk.c:329-361 | after any run of appends, of texts of any number of lines, the log is the longest suffix of whole lines of everything appended that stays below the capacity |
| ChatLog.LogIsOfWholeRecordsExactly | aisys/socket/ai_helper_chat_stream_multiuser_sk.c:329-361 | every record that fits whole is in the log, and the log consists of whole records exactly when that suffix begins with the first line of a record |
| ChatLog.LogHoldsTheLongestSuffix | aisys/socket/ai_helper_chat_stream_multiuser_sk.c:329-361 | for texts of one line that makes the log exactly the longest suffix of whole records below the capacity |
| ChatLog.RecordsOfSeveralLinesAreCut | aisys/socket/ai_helper_chat_stream_multiuser_sk.c:342-354 | evicting the first line of a text of several lines leaves its other lines at the front of the log |
| ChatLog.Log.BuildMessages | aisys/socket/ai_helper_chat_stream_multiuser_sk.c:364-415 | the pointer walk over the buffer computes the specification parser |
| ChatLog.ParserRecoversExactlyTheRecoverable | aisys/socket/ai_helper_chat_stream_multiuser_sk.c:364-415 | the parser gives back every logged role and text in order exactly when every text is non-empty, of one line and under 4096 bytes |
| ChatLog.ConversationIsRecovered | aisys/socket/ai_helper_chat_stream_multiuser_sk.c:329-415 | logging any conversation of such records and parsing the log gives its longest suffix that fits |

## Left out

- Windows, sockets, curl, files, forking, signals, terminals and printing: their data are parameters and results here. JSON decoding is an arbitrary function from a line to an optional text.
- Random draws and clocks: pivots, keys, exponents and times are arbitrary inputs.
- Machine integers outside the places named: sums in the calculator beyond 32 bits are an overflow outcome, everything in the SJU-CPU programs, the sorting and heap code and the totient is over mathematical integers, and prices in `Airtel` add up without wrapping.
- JobQueue.SafeInEveryRun: health and damage are real numbers, so the rounding of doubles is not modelled.
- JobQueue: the game around the queue; the damage of a job is any positive number, and the boss lock either is granted or times out at any moment.
- DeadlockHunters: the message printed about the threads involved, and the sleeps between attempts.
- PostCalculator.CalculatorIsCorrect: the exact condition is for trees whose divisions have operands that fit a char; a quotient of narrowed operands has no closed form in the true ones, so of other trees only the char-operand value is stated.
- isdigit on negative characters, and text that is not ASCII, in the calculator.
- ExpressionTree: freeing nodes; a tree is built from fresh nodes and never released.
- Aes.KeyExpansion: keys under 16 bytes, for which the original fails later with words of the wrong length; and the hexadecimal and UTF-8 wrappers.
- Des.DesEncrypt: the trace of the rounds it returns beside the text, and the prefixes, blanks and underscores that Python's number parser also accepts.
- Rsa.RoundTrip: chr of numbers above the last code point, which cannot arise from text below n.
- SjuCpu: reading the program file, whose loop also stores a cell for the missing last line; the model starts from a loaded memory.
- LineSplitter: embedded NUL bytes end a line early for the JSON parser; that is inside the arbitrary decoder.
- ChatLog.Log.Append: records of 4096 bytes and more, for which the original copies more bytes than it formatted.
- BreadthFirst.Graph.AddEdge: vertex numbers above n, which the original does not check.
- KthSmallest.ListHeap: the comparison that reads one cell past the array when n is twice the index; the model looks at the last child alone, with the same outcome.
- KthSmallest.FindKthSmallest: lists of no numbers, on which the original reads outside its copy, and lists not bounded by their first cell.
- SearchTree: `BSTRemove`, which drops the right subtree of a successor that is a direct child; and height balance below the root, which only rebalancing at the root does not give.
- HybridSort.Sorter.FindPivot: modes other than the four the program uses, for which the original compares uninitialised indices.
- Exercises without a claim of this kind: other sorts, searches, lists, recursion drills, the remaining classical ciphers and the web exercises.
