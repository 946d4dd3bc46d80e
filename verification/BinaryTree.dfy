/** Binary trees and their traversals. */
module BinaryTree {

  datatype Tree<T> = Nil | Node(left: Tree<T>, val: T, right: Tree<T>)

  function Inorder<T>(t: Tree<T>): seq<T> {
    match t
    case Nil => []
    case Node(l, v, r) => Inorder(l) + ([v] + Inorder(r))
  }

  function Postorder<T>(t: Tree<T>): seq<T> {
    match t
    case Nil => []
    case Node(l, v, r) => Postorder(l) + Postorder(r) + [v]
  }
}
