/**
  The owned binary tree of the compiler (src/binary_tree.rs).  Rust's
  `Option<Box<BinaryTree<T>>>` link becomes an `Option<Tree<T>>`; since a
  Dafny datatype is immutable, each setter returns the updated tree.
 */
module BinaryTree {
  import opened Wrappers

  datatype Tree<T> = Node(key: T, left: Link<T>, right: Link<T>)

  type Link<T> = Option<Tree<T>>

  /** A tree holding `key` and no children. */
  function New<T>(key: T): (t: Tree<T>)
    ensures GetRoot(t) == key
    ensures GetLeft(t) == None && GetRight(t) == None
  {
    Node(key, None, None)
  }

  function GetRoot<T>(t: Tree<T>): T
  {
    t.key
  }

  function GetLeft<T>(t: Tree<T>): Link<T>
  {
    t.left
  }

  function GetRight<T>(t: Tree<T>): Link<T>
  {
    t.right
  }

  /** Replaces the right link; the key and the left link are left as they were. */
  function SetRight<T>(t: Tree<T>, right: Link<T>): (u: Tree<T>)
    ensures GetRight(u) == right
    ensures GetRoot(u) == GetRoot(t) && GetLeft(u) == GetLeft(t)
  {
    t.(right := right)
  }

  /** Replaces the left link; the key and the right link are left as they were. */
  function SetLeft<T>(t: Tree<T>, left: Link<T>): (u: Tree<T>)
    ensures GetLeft(u) == left
    ensures GetRoot(u) == GetRoot(t) && GetRight(u) == GetRight(t)
  {
    t.(left := left)
  }

  /**
    The constructor used by the parser (src/main.rs:14-22): a fresh node
    that adopts `left` as its left child and has no right child yet.
   */
  function NewBinaryWithoutRight<T>(root: T, left: Tree<T>): (t: Tree<T>)
    ensures GetRoot(t) == root
    ensures GetLeft(t) == Some(left) && GetRight(t) == None
  {
    SetLeft(New(root), Some(left))
  }
}
