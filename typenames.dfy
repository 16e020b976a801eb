/** Type-name tests of the dumper: pointer types, the "simple" and "movable" type
    tables, the layout of `QHash` nodes, and the choice of a handler for an outer
    type name. Names are C strings; the model assumes a build without a Qt
    namespace, so `stripNamespace` returns its argument. */
module TypeNames {

  const PtrConst: string := "* const"

  predicate EndsWith(s: string, t: string) {
    |t| <= |s| && s[|s| - |t|..] == t
  }

  /** `isPointerType`: the name ends in `*` or in `* const`. */
  predicate IsPointerType(t: string) {
    EndsWith(t, "*") || EndsWith(t, PtrConst)
  }

  /** `stripPointerType`: chop a trailing `*`, then a trailing `* const`, then one blank. */
  function StripPointerType(t: string): (r: string)
    ensures |t| - 9 <= |r| <= |t| && r == t[..|r|]
  {
    var a := if EndsWith(t, "*") then t[..|t| - 1] else t;
    var b := if EndsWith(a, PtrConst) then a[..|a| - 7] else a;
    assert a == t[..|a|];
    assert b == t[..|b|];
    if EndsWith(b, " ") then b[..|b| - 1] else b
  }

  /** The two spellings of a pointer type the debugger sends strip back to the pointee. */
  lemma StripPointerSpellings(n: string)
    ensures IsPointerType(n + " *") && StripPointerType(n + " *") == n
    ensures IsPointerType(n + " * const") && StripPointerType(n + " * const") == n
  {
    var p := n + " *";
    assert p[|p| - 1..] == "*";
    var a := p[..|p| - 1];
    assert a == n + " ";
    assert |a| >= 7 ==> a[|a| - 7..][6] == ' ';
    assert !EndsWith(a, PtrConst);
    assert a[|a| - 1..] == " ";
    assert a[..|a| - 1] == n;
    var q := n + " * const";
    assert q[|q| - 1..] == "t";
    assert !EndsWith(q, "*");
    assert q[|q| - 7..] == PtrConst;
    var b := q[..|q| - 7];
    assert b == n + " ";
    assert b[|b| - 1..] == " ";
    assert b[..|b| - 1] == n;
  }

  /** `startsWith(s, t)` on C strings: compares characters until the end of `t`;
      a shorter `s` fails at its terminating NUL. */
  method StartsWith(s: string, t: string) returns (r: bool)
    requires '\0' !in t
    ensures r <==> t <= s
  {
    var i := 0;
    while i < |t|
      invariant 0 <= i <= |t|
      invariant i <= |s| && t[..i] == s[..i]
    {
      if i >= |s| || t[i] != s[i] {
        return false;
      }
      i := i + 1;
    }
    return true;
  }

  /** `isSimpleType`: a switch on the first character, then exact names or a
      `long `/`short `/`signed `/`unsigned ` prefix. */
  predicate IsSimpleType(t: string) {
    if |t| == 0 then false
    else match t[0]
      case 'c' => t == "char"
      case 'd' => t == "double"
      case 'f' => t == "float"
      case 'i' => t == "int"
      case 'l' => t == "long" || "long " <= t
      case 's' => t == "short" || "short " <= t || t == "signed" || "signed " <= t
      case 'u' => t == "unsigned" || "unsigned " <= t
      case _ => false
  }

  /** The simple types, stated without the switch. */
  lemma SimpleTypeReference(t: string)
    ensures IsSimpleType(t) <==>
      t in {"char", "double", "float", "int", "long", "short", "signed", "unsigned"}
      || "long " <= t || "short " <= t || "signed " <= t || "unsigned " <= t
  {
    if |t| > 0 {
      assert "long " <= t ==> t[0] == 'l';
      assert "short " <= t ==> t[0] == 's';
      assert "signed " <= t ==> t[0] == 's';
      assert "unsigned " <= t ==> t[0] == 'u';
    }
  }

  /** The Qt classes `isMovableType` lists by name (`QLocal` spelled as in the table). */
  const MovableNames: set<string> := {
    "QBrush", "QBitArray", "QByteArray", "QCustomTypeInfo", "QChar", "QDate", "QDateTime",
    "QFileInfo", "QFixed", "QFixedPoint", "QFixedSize", "QHashDummyValue", "QIcon", "QImage",
    "QLine", "QLineF", "QLatin1Char", "QLocal", "QMatrix", "QModelIndex", "QPoint", "QPointF",
    "QPen", "QPersistentModelIndex", "QResourceRoot", "QRect", "QRectF", "QRegExp", "QSize",
    "QSizeF", "QString", "QTime", "QTextBlock", "QUrl", "QVariant", "QXmlStreamAttribute",
    "QXmlStreamNamespaceDeclaration", "QXmlStreamNotationDeclaration",
    "QXmlStreamEntityDeclaration"}

  /** `isMovableType`: pointers, simple types, and a switch on the second character
      over the Qt classes known to be movable. A name shorter than two characters
      is not movable (for the empty name the source reads past the terminator). */
  predicate IsMovableType(t: string) {
    IsPointerType(t) || IsSimpleType(t) || InMovableTable(t)
  }

  /** The switch of `isMovableType` on the second character. */
  predicate InMovableTable(t: string) {
    if |t| < 2 then false
    else match t[1]
      case 'B' => t == "QBrush" || t == "QBitArray" || t == "QByteArray"
      case 'C' => t == "QCustomTypeInfo" || t == "QChar"
      case 'D' => t == "QDate" || t == "QDateTime"
      case 'F' => t == "QFileInfo" || t == "QFixed" || t == "QFixedPoint" || t == "QFixedSize"
      case 'H' => t == "QHashDummyValue"
      case 'I' => t == "QIcon" || t == "QImage"
      case 'L' => t == "QLine" || t == "QLineF" || t == "QLatin1Char" || t == "QLocal"
      case 'M' => t == "QMatrix" || t == "QModelIndex"
      case 'P' => t == "QPoint" || t == "QPointF" || t == "QPen" || t == "QPersistentModelIndex"
      case 'R' => t == "QResourceRoot" || t == "QRect" || t == "QRectF" || t == "QRegExp"
      case 'S' => t == "QSize" || t == "QSizeF" || t == "QString"
      case 'T' => t == "QTime" || t == "QTextBlock"
      case 'U' => t == "QUrl"
      case 'V' => t == "QVariant"
      case 'X' => t == "QXmlStreamAttribute" || t == "QXmlStreamNamespaceDeclaration"
                  || t == "QXmlStreamNotationDeclaration" || t == "QXmlStreamEntityDeclaration"
      case _ => false
  }

  /** The switch on the second character finds exactly the names of the table: none
      of them is filed under the wrong character. */
  lemma MovableTableReference(t: string)
    ensures InMovableTable(t) <==> t in MovableNames
  {
    MovableTableSound(t);
    if |t| >= 2 && t[1] <= 'F' {
      MovableTableCompleteBF(t);
    } else if |t| >= 2 && t[1] <= 'L' {
      MovableTableCompleteHL(t);
    } else if |t| >= 2 && t[1] <= 'R' {
      MovableTableCompleteMR(t);
    } else if |t| >= 2 {
      MovableTableCompleteSX(t);
    }
  }

  lemma MovableTableSound(t: string)
    ensures InMovableTable(t) ==> t in MovableNames
  {
  }

  lemma MovableTableCompleteBF(t: string)
    requires |t| >= 2 && t[1] <= 'F'
    ensures t in MovableNames ==> InMovableTable(t)
  {
  }

  lemma MovableTableCompleteHL(t: string)
    requires |t| >= 2 && 'F' < t[1] <= 'L'
    ensures t in MovableNames ==> InMovableTable(t)
  {
  }

  lemma MovableTableCompleteMR(t: string)
    requires |t| >= 2 && 'L' < t[1] <= 'R'
    ensures t in MovableNames ==> InMovableTable(t)
  {
  }

  lemma MovableTableCompleteSX(t: string)
    requires |t| >= 2 && 'R' < t[1]
    ensures t in MovableNames ==> InMovableTable(t)
  {
  }

  /** `isOptimizedIntKey`: `QHash` stores these keys without a hash field; `short`
      and `ushort` only on little-endian machines. */
  predicate IsOptimizedIntKey(keyType: string, littleEndian: bool) {
    keyType == "int" || (littleEndian && (keyType == "short" || keyType == "ushort"))
    || keyType == "uint"
  }

  // ---------------------------------------------------------------------------
  // QHash node layouts

  /** The five node structs `hashOffset` declares: O(ptimized int key) or N(ot),
      S(mall) or L(arge) value, and L for a large key. */
  datatype NodeLayout = NodeOS | NodeOL | NodeNS | NodeNL | NodeL

  const UintSize: nat := 4

  /** Field sizes in declaration order; every field is aligned to its size. */
  function Fields(layout: NodeLayout, ptrSize: nat): seq<nat>
  {
    match layout
    case NodeOS => [ptrSize, UintSize, UintSize]
    case NodeOL => [ptrSize, UintSize, ptrSize]
    case NodeNS => [ptrSize, UintSize, UintSize, UintSize]
    case NodeNL => [ptrSize, UintSize, UintSize, ptrSize]
    case NodeL => [ptrSize, UintSize, ptrSize, ptrSize]
  }

  /** Index of the key field; the value is always the last field. */
  function KeyField(layout: NodeLayout): nat
  {
    match layout
    case NodeOS => 1
    case NodeOL => 1
    case _ => 2
  }

  function AlignUp(x: nat, a: nat): (r: nat)
    requires a > 0
    ensures x <= r < x + a
  {
    if x % a == 0 then x else x + (a - x % a)
  }

  /** `offsetof` of field `i` under natural alignment. */
  function FieldOffset(sizes: seq<nat>, i: nat): (off: nat)
    requires i < |sizes|
    requires forall k :: 0 <= k < |sizes| ==> sizes[k] > 0
  {
    if i == 0 then 0 else AlignUp(FieldOffset(sizes, i - 1) + sizes[i - 1], sizes[i])
  }

  /** The struct `hashOffset` picks for a key and value. */
  function ChooseLayout(optimizedIntKey: bool, keySize: nat, valueSize: nat): NodeLayout
  {
    if optimizedIntKey then (if valueSize > UintSize then NodeOL else NodeOS)
    else if keySize > UintSize then NodeL
    else if valueSize > UintSize then NodeNL
    else NodeNS
  }

  predicate ValidPtrSize(ptrSize: nat) { ptrSize == 4 || ptrSize == 8 }

  /** `hashOffset(optimizedIntKey, forKey, keySize, valueSize)` for a pointer size. */
  function HashOffset(optimizedIntKey: bool, forKey: bool, keySize: nat, valueSize: nat,
                      ptrSize: nat): nat
    requires ValidPtrSize(ptrSize)
  {
    var layout := ChooseLayout(optimizedIntKey, keySize, valueSize);
    var fields := Fields(layout, ptrSize);
    FieldOffset(fields, if forKey then KeyField(layout) else |fields| - 1)
  }

  /** The offsets, in closed form, for `P`-byte pointers. */
  lemma HashOffsetTable(optimizedIntKey: bool, keySize: nat, valueSize: nat, ptrSize: nat)
    requires ValidPtrSize(ptrSize)
    ensures var P := ptrSize;
      var key := HashOffset(optimizedIntKey, true, keySize, valueSize, P);
      var value := HashOffset(optimizedIntKey, false, keySize, valueSize, P);
      match ChooseLayout(optimizedIntKey, keySize, valueSize)
      case NodeOS => key == P && value == P + 4
      case NodeOL => key == P && value == 2 * P
      case NodeNS => key == P + 4 && value == P + 8
      case NodeNL => key == P + 4 && value == (if P == 4 then 12 else 16)
      case NodeL => key == 2 * P && value == 3 * P
  {
    var layout := ChooseLayout(optimizedIntKey, keySize, valueSize);
    LayoutOffsets(layout, ptrSize);
  }

  lemma LayoutOffsets(layout: NodeLayout, P: nat)
    requires ValidPtrSize(P)
    ensures var f := Fields(layout, P);
      FieldOffset(f, 1) == P
      && FieldOffset(f, 2) == (if layout in {NodeOS, NodeNS, NodeNL} then P + 4 else 2 * P)
      && (|f| == 4 ==>
            FieldOffset(f, 3) == (if layout == NodeNS then P + 8
                                  else if layout == NodeNL then (if P == 4 then 12 else 16)
                                  else 3 * P))
  {
    if P == 4 {
      Offsets4(layout);
    } else {
      Offsets8(layout);
    }
  }

  lemma Offsets4(layout: NodeLayout)
    ensures var f := Fields(layout, 4);
      FieldOffset(f, 1) == 4 && FieldOffset(f, 2) == 8 && (|f| == 4 ==> FieldOffset(f, 3) == 12)
  {
    var f := Fields(layout, 4);
    assert FieldOffset(f, 1) == 4;
    assert FieldOffset(f, 2) == 8;
  }

  lemma Offsets8(layout: NodeLayout)
    ensures var f := Fields(layout, 8);
      FieldOffset(f, 1) == 8
      && FieldOffset(f, 2) == (if layout in {NodeOS, NodeNS, NodeNL} then 12 else 16)
      && (|f| == 4 ==> FieldOffset(f, 3) == (if layout == NodeNS then 16
                                             else if layout == NodeNL then 16 else 24))
  {
    var f := Fields(layout, 8);
    assert FieldOffset(f, 1) == 8;
    match layout
    case NodeOS =>
    case NodeOL =>
    case NodeNS =>
      assert FieldOffset(f, 2) == 12;
    case NodeNL =>
      assert FieldOffset(f, 2) == 12;
    case NodeL =>
      assert FieldOffset(f, 2) == 16;
  }

  /** An optimized integer key is stored right after the `next` pointer, where the
      other layouts keep the `h` hash field, so only such keys pick an `O` layout;
      `short` and `ushort` are optimized exactly on little-endian machines. */
  lemma OptimizedKeyLayout(keyType: string, littleEndian: bool, keySize: nat, valueSize: nat,
                           ptrSize: nat)
    requires ValidPtrSize(ptrSize)
    ensures var opt := IsOptimizedIntKey(keyType, littleEndian);
      var key := HashOffset(opt, true, keySize, valueSize, ptrSize);
      && (opt ==> key == ptrSize
                  && ChooseLayout(opt, keySize, valueSize) == (if valueSize > UintSize then NodeOL else NodeOS))
      && (!opt ==> key >= ptrSize + UintSize)
    ensures keyType == "short" || keyType == "ushort" ==>
      (IsOptimizedIntKey(keyType, littleEndian) <==> littleEndian)
  {
    HashOffsetTable(IsOptimizedIntKey(keyType, littleEndian), keySize, valueSize, ptrSize);
  }

  /** The key lies after the `next` pointer and ends before the value starts. */
  lemma KeyBeforeValue(optimizedIntKey: bool, keySize: nat, valueSize: nat, ptrSize: nat)
    requires ValidPtrSize(ptrSize)
    ensures var layout := ChooseLayout(optimizedIntKey, keySize, valueSize);
      var key := HashOffset(optimizedIntKey, true, keySize, valueSize, ptrSize);
      ptrSize <= key
      && key + Fields(layout, ptrSize)[KeyField(layout)]
         <= HashOffset(optimizedIntKey, false, keySize, valueSize, ptrSize)
  {
    HashOffsetTable(optimizedIntKey, keySize, valueSize, ptrSize);
  }

  // ---------------------------------------------------------------------------
  // Handler dispatch

  /** The type-specific dumpers `handleProtocolVersion2and3` can call. */
  datatype Handler =
    | StdMap | QAbstractItemModel | QAbstractItem | QByteArray | QChar | QDateTime | QDir
    | StdVector | StdSet | QFile | QFileInfo | QHash | QHashNode | StdList | QImage
    | QImageData | QList | QLinkedList | QLocale | QMap | QMapNode | QModelIndex | QMultiMap
    | QObject | QObjectPropertyList | QObjectProperty | QObjectMethodList | QObjectSignal
    | QObjectSignalList | QObjectSlot | QObjectSlotList | QObjectChildList | QPixmap | QSet
    | QSharedPointer | QString | QStringList | StdWString | StdVectorBool | StdString
    | QTextCodec | QVariant | QVector | QWeakPointer
    | NoHandler

  /** The dispatcher's switch on the second character of the outer type, for a GUI
      build with Qt 4.5 or later. A name shorter than two characters finds no handler. */
  function Classify(t: string): Handler
  {
    if |t| < 2 then NoHandler
    else match t[1]
      case 'a' => if t == "map" then StdMap else NoHandler
      case 'A' =>
        if t == "QAbstractItemModel" then QAbstractItemModel
        else if t == "QAbstractItem" then QAbstractItem else NoHandler
      case 'B' => if t == "QByteArray" then QByteArray else NoHandler
      case 'C' => if t == "QChar" then QChar else NoHandler
      case 'D' =>
        if t == "QDateTime" then QDateTime else if t == "QDir" then QDir else NoHandler
      case 'e' =>
        if t == "vector" then StdVector else if t == "set" then StdSet else NoHandler
      case 'F' =>
        if t == "QFile" then QFile else if t == "QFileInfo" then QFileInfo else NoHandler
      case 'H' =>
        if t == "QHash" then QHash else if t == "QHashNode" then QHashNode else NoHandler
      case 'i' => if t == "list" then StdList else NoHandler
      case 'I' =>
        if t == "QImage" then QImage else if t == "QImageData" then QImageData else NoHandler
      case 'L' =>
        if t == "QList" then QList else if t == "QLinkedList" then QLinkedList
        else if t == "QLocale" then QLocale else NoHandler
      case 'M' =>
        if t == "QMap" then QMap else if t == "QMapNode" then QMapNode
        else if t == "QModelIndex" then QModelIndex
        else if t == "QMultiMap" then QMultiMap else NoHandler
      case 'O' =>
        if t == "QObject" then QObject
        else if t == "QObjectPropertyList" then QObjectPropertyList
        else if t == "QObjectProperty" then QObjectProperty
        else if t == "QObjectMethodList" then QObjectMethodList
        else if t == "QObjectSignal" then QObjectSignal
        else if t == "QObjectSignalList" then QObjectSignalList
        else if t == "QObjectSlot" then QObjectSlot
        else if t == "QObjectSlotList" then QObjectSlotList
        else if t == "QObjectChildList" then QObjectChildList else NoHandler
      case 'P' => if t == "QPixmap" then QPixmap else NoHandler
      case 'S' =>
        if t == "QSet" then QSet else if t == "QSharedPointer" then QSharedPointer
        else if t == "QString" then QString
        else if t == "QStringList" then QStringList else NoHandler
      case 's' => if t == "wstring" then StdWString else NoHandler
      case 't' =>
        if t == "std::vector" then StdVector
        else if t == "std::vector::bool" then StdVectorBool
        else if t == "std::list" then StdList
        else if t == "std::map" then StdMap
        else if t == "std::set" then StdSet
        else if t == "std::string" || t == "string" then StdString
        else if t == "std::wstring" then StdWString else NoHandler
      case 'T' => if t == "QTextCodec" then QTextCodec else NoHandler
      case 'V' =>
        if t == "QVariant" then QVariant else if t == "QVector" then QVector else NoHandler
      case 'W' => if t == "QWeakPointer" then QWeakPointer else NoHandler
      case _ => NoHandler
  }

  /** The handlers this model follows in detail are chosen for exactly their own
      names: the switch on the second character neither loses nor misroutes them. */
  lemma ClassifyQList(t: string)
    ensures Classify(t) == QList <==> t == "QList"
  {
    if t == "QList" {
      assert t[1] == 'L';
    }
  }

  lemma ClassifyQVector(t: string)
    ensures Classify(t) == QVector <==> t == "QVector"
  {
    if t == "QVector" {
      assert t[1] == 'V';
    }
  }

  lemma ClassifyQStringList(t: string)
    ensures Classify(t) == QStringList <==> t == "QStringList"
  {
    if t == "QStringList" {
      assert t[1] == 'S';
    }
  }

  /** `vector` (from a `std::` type with the prefix already removed) and
      `std::vector` share a handler, although their second characters differ. */
  lemma ClassifyStdVector(t: string)
    ensures Classify(t) == StdVector <==> t == "vector" || t == "std::vector"
  {
    if t == "vector" {
      assert t[1] == 'e';
    } else if t == "std::vector" {
      assert t[1] == 't';
    } else {
      OnlyVectorsAreStdVector(t);
    }
  }

  lemma OnlyVectorsAreStdVector(t: string)
    requires t != "vector" && t != "std::vector"
    ensures Classify(t) != StdVector
  {
  }

  lemma ClassifyStdVectorBool(t: string)
    ensures Classify(t) == StdVectorBool <==> t == "std::vector::bool"
  {
    if t == "std::vector::bool" {
      assert t[1] == 't';
    }
  }
}
